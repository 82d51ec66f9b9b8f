/**
 * The chapter-by-chapter sync of `apps/docs/sync_from_source.py`: which
 * pages a chapter directory becomes and in what order, the `_meta.json`
 * objects written for a chapter and for the content root, and the
 * statistics kept while pages are written. The file system is a set of
 * page paths relative to the target content root; modification times and
 * conversion failures are inputs.
 */
module SyncFromSource {
  import opened Options
  import opened Text
  import opened Meta
  import opened Sorting
  import opened Markdown
  import opened SyncNaming

  // ---------------------------------------------------------------------
  // Scanning a chapter
  // ---------------------------------------------------------------------

  /** A source page and the page it is written to (`FileMapping`). */
  datatype FileMapping = FileMapping(source: string, target: string, slug: string, title: string, order: int)

  function MappingOrder(m: FileMapping): int { m.order }

  /** The file a page with this slug is written to: `index.mdx` for the chapter overview, `<slug>.mdx` otherwise. */
  function TargetName(slug: string): (r: string)
    ensures r == "index.mdx" <==> slug == "index"
    ensures slug != [] && '.' !in slug ==> Stem(r) == slug && Suffix(r) == ".mdx"
  {
    var r := if slug == "index" then "index.mdx" else slug + ".mdx";
    assert r == slug + "." + "mdx";
    assert r == "index.mdx" ==> slug == r[..|r| - 4];
    assert slug != [] && '.' !in slug ==> Stem(r) == slug && Suffix(r) == ".mdx" by {
      if slug != [] && '.' !in slug { StemOfExtension(slug, "mdx"); }
    }
    r
  }

  /** The mapping for one `.md` file of a chapter directory whose normalised name is `chapter`. */
  function MappingFor(chapter: string, name: string): FileMapping
  {
    MappingFrom(chapter, name, ExtractFileInfo(name))
  }

  function MappingFrom(chapter: string, name: string, info: FileInfo): FileMapping
  {
    FileMapping(name, chapter + "/" + TargetName(info.slug), info.slug, info.title, info.order)
  }

  /** The mappings of a chapter's files, in the order the directory listing gives them. */
  function Mappings(chapter: string, names: seq<string>): (r: seq<FileMapping>)
    ensures |r| == |names|
  {
    if names == [] then [] else Mappings(chapter, names[..|names| - 1]) + [MappingFor(chapter, names[|names| - 1])]
  }

  /** Mapping `i` is the mapping of file `i`. */
  lemma {:induction false} MappingsAt(chapter: string, names: seq<string>, i: nat)
    requires i < |names|
    ensures Mappings(chapter, names)[i] == MappingFor(chapter, names[i])
  {
    if i < |names| - 1 {
      MappingsAt(chapter, names[..|names| - 1], i);
    }
  }

  lemma MappingsSnoc(chapter: string, names: seq<string>, i: nat)
    requires i < |names|
    ensures Mappings(chapter, names[..i + 1]) == Mappings(chapter, names[..i]) + [MappingFor(chapter, names[i])]
  {
    assert names[..i + 1][..i] == names[..i];
  }

  /** The pages of a chapter directory as `scan_source_chapter` returns them: stably sorted by order. */
  function ScannedChapter(dirName: string, names: seq<string>): seq<FileMapping>
  {
    SortByOrder(Mappings(NormalizeChapterName(dirName), names), MappingOrder)
  }

  /** A mapping of a chapter's page: its order is the one its file name gives, and it goes to `index.mdx` exactly when its slug is `index`. */
  predicate WellMapped(chapter: string, names: seq<string>, m: FileMapping)
  {
    m.source in names && m.order == ExtractFileInfo(m.source).order &&
    (m.target == chapter + "/index.mdx" <==> m.slug == "index")
  }

  lemma MappingForWellMapped(chapter: string, names: seq<string>, i: nat)
    requires i < |names|
    ensures WellMapped(chapter, names, MappingFor(chapter, names[i]))
  {
    MappingFromTarget(chapter, names[i], ExtractFileInfo(names[i]));
  }

  lemma MappingFromTarget(chapter: string, name: string, info: FileInfo)
    ensures MappingFrom(chapter, name, info).target == chapter + "/index.mdx" <==> info.slug == "index"
  {
    TargetIsIndex(chapter + "/", info.slug);
    assert (chapter + "/") + "index.mdx" == chapter + "/index.mdx";
  }

  lemma TargetIsIndex(p: string, slug: string)
    ensures p + TargetName(slug) == p + "index.mdx" <==> slug == "index"
  {
    if p + TargetName(slug) == p + "index.mdx" {
      assert TargetName(slug) == (p + TargetName(slug))[|p|..];
    }
  }

  /**
   * The scanned pages are sorted by order, hold exactly one mapping per file,
   * keep the listing order among equal orders, and each is well mapped.
   */
  lemma ScannedChapterShape(dirName: string, names: seq<string>)
    ensures var r := ScannedChapter(dirName, names);
      var ms := Mappings(NormalizeChapterName(dirName), names);
      SortedByOrder(r, MappingOrder) && multiset(r) == multiset(ms) &&
      (forall k :: WithKey(r, MappingOrder, k) == WithKey(ms, MappingOrder, k)) &&
      forall m :: m in r ==> WellMapped(NormalizeChapterName(dirName), names, m)
  {
    var chapter := NormalizeChapterName(dirName);
    var ms := Mappings(chapter, names);
    var r := ScannedChapter(dirName, names);
    forall m | m in r ensures WellMapped(chapter, names, m) {
      assert m in multiset(ms);
      var i :| 0 <= i < |ms| && ms[i] == m;
      MappingsAt(chapter, names, i);
      MappingForWellMapped(chapter, names, i);
    }
  }

  // ---------------------------------------------------------------------
  // A chapter's _meta.json
  // ---------------------------------------------------------------------

  /** `meta[m.slug] = m.title` for each mapping in turn. */
  function ChapterMeta(ms: seq<FileMapping>): (r: seq<(string, string)>)
    ensures DistinctKeys(r) && |r| <= |ms|
    ensures forall i :: 0 <= i < |ms| ==> ms[i].slug in Keys(r)
    ensures forall k :: k in Keys(r) ==> exists i :: 0 <= i < |ms| && ms[i].slug == k
  {
    if ms == [] then []
    else
      var init := ChapterMeta(ms[..|ms| - 1]);
      var last := ms[|ms| - 1];
      var r := Put(init, last.slug, last.title);
      forall i | 0 <= i < |ms| ensures ms[i].slug in Keys(r) {
        if i < |ms| - 1 {
          assert ms[i] == ms[..|ms| - 1][i];
          var j :| 0 <= j < |init| && init[j].0 == ms[i].slug;
          assert r[j].0 == ms[i].slug;
        }
      }
      forall k | k in Keys(r) ensures exists i :: 0 <= i < |ms| && ms[i].slug == k {
        if k != last.slug {
          var j :| 0 <= j < |r| && r[j].0 == k;
          assert j < |init| && init[j].0 == k;
          assert k in Keys(init);
          var i :| 0 <= i < |ms| - 1 && ms[..|ms| - 1][i].slug == k;
          assert ms[i].slug == k;
        } else {
          assert ms[|ms| - 1].slug == k;
        }
      }
      r
  }

  /** With distinct slugs, the chapter's meta lists every page once, in the scanned order, under its title. */
  lemma {:induction false} ChapterMetaInOrder(ms: seq<FileMapping>)
    requires forall i, j :: 0 <= i < j < |ms| ==> ms[i].slug != ms[j].slug
    ensures ChapterMeta(ms) == seq(|ms|, i requires 0 <= i < |ms| => (ms[i].slug, ms[i].title))
  {
    if ms != [] {
      var init := ms[..|ms| - 1];
      ChapterMetaInOrder(init);
      var last := ms[|ms| - 1];
      var prev := ChapterMeta(init);
      assert Put(prev, last.slug, last.title) == prev + [(last.slug, last.title)];
    }
  }

  // ---------------------------------------------------------------------
  // Statistics of sync_file
  // ---------------------------------------------------------------------

  /** The `stats` counters. */
  datatype Stats = Stats(scanned: nat, created: nat, updated: nat, skipped: nat, errors: nat)

  /** The pages accounted for: every page handled adds to exactly one of these. */
  function Handled(s: Stats): nat { s.created + s.updated + s.skipped + s.errors }

  /** What happened to one page. */
  datatype Outcome = Skipped | Created | Updated | Failed

  /** The counter for an outcome incremented. */
  function Tally(s: Stats, o: Outcome): (r: Stats)
    ensures Handled(r) == Handled(s) + 1 && r.scanned == s.scanned
    ensures s.created <= r.created && s.updated <= r.updated && s.skipped <= r.skipped && s.errors <= r.errors
    ensures (r.created > s.created <==> o == Created) && (r.updated > s.updated <==> o == Updated)
    ensures (r.skipped > s.skipped <==> o == Skipped) && (r.errors > s.errors <==> o == Failed)
  {
    match o
    case Skipped => s.(skipped := s.skipped + 1)
    case Created => s.(created := s.created + 1)
    case Updated => s.(updated := s.updated + 1)
    case Failed => s.(errors := s.errors + 1)
  }

  /** An existing target is kept when it is at least as new as its source, unless the sync is full. */
  predicate UpToDate(targetExists: bool, fullSync: bool, sourceMtime: int, targetMtime: int)
  {
    targetExists && !fullSync && sourceMtime <= targetMtime
  }

  /**
   * The outcome `sync_file` records as written: the target's existence is
   * checked after the page has been written, so outside a dry run every
   * written page counts as updated.
   */
  function SyncFileOutcome(targetExists: bool, fullSync: bool, dryRun: bool, sourceMtime: int, targetMtime: int, fails: bool): (r: Outcome)
    ensures r == Skipped <==> UpToDate(targetExists, fullSync, sourceMtime, targetMtime)
    ensures r == Failed <==> !UpToDate(targetExists, fullSync, sourceMtime, targetMtime) && fails
  {
    if UpToDate(targetExists, fullSync, sourceMtime, targetMtime) then Skipped
    else if fails then Failed
    else if targetExists || !dryRun then Updated
    else Created
  }

  /** As written, a page is counted as created only in a dry run. */
  lemma CreatedOnlyInDryRun(targetExists: bool, fullSync: bool, dryRun: bool, sourceMtime: int, targetMtime: int, fails: bool)
    requires SyncFileOutcome(targetExists, fullSync, dryRun, sourceMtime, targetMtime, fails) == Created
    ensures dryRun && !targetExists
  {
  }

  /** A page written for the first time, outside a dry run, is counted as updated. */
  lemma NewPageCountedAsUpdated()
    ensures SyncFileOutcome(false, false, false, 0, 0, false) == Updated
  {
  }

  /** The outcome with the target's existence taken before the write. */
  function SyncFileOutcomeChecked(targetExists: bool, fullSync: bool, sourceMtime: int, targetMtime: int, fails: bool): (r: Outcome)
    ensures r == Skipped <==> UpToDate(targetExists, fullSync, sourceMtime, targetMtime)
    ensures r == Failed <==> !UpToDate(targetExists, fullSync, sourceMtime, targetMtime) && fails
    ensures r == Created <==> !targetExists && !fails
    ensures r == Updated <==> targetExists && !fails && !UpToDate(targetExists, fullSync, sourceMtime, targetMtime)
  {
    if UpToDate(targetExists, fullSync, sourceMtime, targetMtime) then Skipped
    else if fails then Failed
    else if targetExists then Updated
    else Created
  }

  // ---------------------------------------------------------------------
  // Root pages
  // ---------------------------------------------------------------------

  /** `md_file.name.lower() == "index.md"`: the root index is synced separately. */
  predicate IsIndexPage(name: string) { Lower(name) == "index.md" }

  /** A root page that is converted and recorded (not the index, conversion does not fail). */
  predicate Publishes(name: string, fails: set<string>)
  {
    !IsIndexPage(name) && name !in fails
  }

  /** The slug a root page is written under. */
  function RootSlug(name: string): string { GenerateSlug(Stem(name)) }

  /** `root_pages_meta` after the root pages `names` have been handled in turn. */
  function RootPagesAfter(meta: seq<(string, string)>, names: seq<string>, fails: set<string>): (r: seq<(string, string)>)
    ensures DistinctKeys(meta) ==> DistinctKeys(r)
  {
    if names == [] then meta
    else
      var prev := RootPagesAfter(meta, names[..|names| - 1], fails);
      var name := names[|names| - 1];
      if Publishes(name, fails) then Put(prev, RootSlug(name), Stem(name)) else prev
  }

  /** Some page of `names` is published under slug `k`, where `slugOf` gives a page's slug. */
  predicate PublishedAs(names: seq<string>, fails: set<string>, slugOf: string -> string, k: string)
  {
    exists i :: 0 <= i < |names| && Publishes(names[i], fails) && slugOf(names[i]) == k
  }

  lemma PublishedAsSnoc(names: seq<string>, fails: set<string>, slugOf: string -> string, k: string)
    requires names != []
    ensures PublishedAs(names, fails, slugOf, k) <==>
      PublishedAs(names[..|names| - 1], fails, slugOf, k) || (Publishes(names[|names| - 1], fails) && slugOf(names[|names| - 1]) == k)
  {
    var init := names[..|names| - 1];
    if PublishedAs(names, fails, slugOf, k) {
      var i :| 0 <= i < |names| && Publishes(names[i], fails) && slugOf(names[i]) == k;
      if i < |names| - 1 { assert init[i] == names[i]; }
    }
    if PublishedAs(init, fails, slugOf, k) {
      var i :| 0 <= i < |init| && Publishes(init[i], fails) && slugOf(init[i]) == k;
      assert names[i] == init[i];
    }
  }

  /** The root pages recorded: a key is in the meta exactly when it was there already or a published page has that slug. */
  lemma {:induction false} RootPagesKeys(meta: seq<(string, string)>, names: seq<string>, fails: set<string>, k: string)
    ensures k in Keys(RootPagesAfter(meta, names, fails)) <==> k in Keys(meta) || PublishedAs(names, fails, RootSlug, k)
  {
    if names != [] {
      var init := names[..|names| - 1];
      var name := names[|names| - 1];
      RootPagesKeys(meta, init, fails, k);
      PublishedAsSnoc(names, fails, RootSlug, k);
      if Publishes(name, fails) {
        PutKeys(RootPagesAfter(meta, init, fails), RootSlug(name), Stem(name), k);
      }
    }
  }

  /** The number of root pages in `names` that are published. */
  function PublishedCount(names: seq<string>, fails: set<string>): (r: nat)
    ensures r <= |names|
  {
    if names == [] then 0
    else PublishedCount(names[..|names| - 1], fails) + (if Publishes(names[|names| - 1], fails) then 1 else 0)
  }

  /** The number of root pages in `names`, other than the index, whose conversion fails. */
  function FailedCount(names: seq<string>, fails: set<string>): (r: nat)
    ensures PublishedCount(names, fails) + r <= |names|
  {
    if names == [] then 0
    else
      var name := names[|names| - 1];
      FailedCount(names[..|names| - 1], fails) + (if !IsIndexPage(name) && name in fails then 1 else 0)
  }

  /** The page files written for the published root pages. */
  function RootTargets(names: seq<string>, fails: set<string>): (r: set<string>)
  {
    if names == [] then {}
    else
      var name := names[|names| - 1];
      var prev := RootTargets(names[..|names| - 1], fails);
      assert forall i :: 0 <= i < |names| - 1 ==> names[..|names| - 1][i] == names[i];
      if Publishes(name, fails) then prev + {RootSlug(name) + ".mdx"} else prev
  }

  /** Handling one more root page. */
  lemma RootPagesStep(meta: seq<(string, string)>, names: seq<string>, i: nat, fails: set<string>)
    requires i < |names|
    ensures var name := names[i];
      var prev := RootPagesAfter(meta, names[..i], fails);
      RootPagesAfter(meta, names[..i + 1], fails) == (if Publishes(name, fails) then Put(prev, RootSlug(name), Stem(name)) else prev) &&
      PublishedCount(names[..i + 1], fails) == PublishedCount(names[..i], fails) + (if Publishes(name, fails) then 1 else 0) &&
      FailedCount(names[..i + 1], fails) == FailedCount(names[..i], fails) + (if !IsIndexPage(name) && name in fails then 1 else 0) &&
      RootTargets(names[..i + 1], fails) == RootTargets(names[..i], fails) + (if Publishes(name, fails) then {RootSlug(name) + ".mdx"} else {})
  {
    assert names[..i + 1][..i] == names[..i] && names[..i + 1][i] == names[i];
  }

  // ---------------------------------------------------------------------
  // The root _meta.json
  // ---------------------------------------------------------------------

  function EntryKey(e: (string, string)): string { e.0 }

  /** `f"chapter-{str(i).zfill(2)}"` for a chapter number below 100. */
  function ChapterKey(i: nat): (r: string)
    requires i < 100
    ensures |r| == 10 && r[..8] == "chapter-"
    ensures r[8] as int - '0' as int == i / 10 && r[9] as int - '0' as int == i % 10
  {
    "chapter-" + [('0' as int + i / 10) as char, ('0' as int + i % 10) as char]
  }

  /** The key is the chapter number zero-padded to two digits. */
  lemma ChapterKeyPadded(i: nat)
    requires i < 100
    ensures ChapterKey(i) == "chapter-" + ZFill(NatToString(i), 2)
  {
    var tens := ('0' as int + i / 10) as char;
    var ones := ('0' as int + i % 10) as char;
    if i < 10 {
      assert NatToString(i) == [ones];
      assert ZFill([ones], 2) == "0" + [ones];
    } else {
      assert NatToString(i / 10) == [tens];
      assert NatToString(i) == [tens, ones];
      assert ZFill([tens, ones], 2) == [tens, ones];
    }
  }

  /** The directory `chapter<n>` normalises to the chapter's key in the root meta. */
  lemma NormalizedChapterKey(n: nat)
    requires n < 100
    ensures NormalizeChapterName("chapter" + NatToString(n)) == ChapterKey(n)
  {
    var name := "chapter" + NatToString(n);
    assert name[|name| - 1] != '\n';
    assert EndAnchored(name) == name;
    assert name[..7] == "chapter" && name[7..] == NatToString(n);
    assert ChapterDigits(name) == Some(NatToString(n));
    ChapterKeyPadded(n);
  }

  /** Different chapter numbers give different keys. */
  lemma ChapterKeyInjective(i: nat, j: nat)
    requires i < 100 && j < 100 && ChapterKey(i) == ChapterKey(j)
    ensures i == j
  {
    assert i / 10 == j / 10 && i % 10 == j % 10;
  }

  /** The `chapter_titles` table. */
  function ChapterTitle(key: string): Option<string>
  {
    match key
    case "chapter-01" => Some("第一章：初识智能体")
    case "chapter-02" => Some("第二章：智能体的前世今生")
    case "chapter-03" => Some("第三章：大语言模型基础")
    case "chapter-04" => Some("第四章：PromptX 框架")
    case "chapter-05" => Some("第五章：AgentX 框架")
    case "chapter-06" => Some("第六章：从单智能体到多智能体")
    case "chapter-07" => Some("第七章：Multigent 架构")
    case "chapter-08" => Some("第八章：综合实战")
    case "chapter-09" => Some("第九章：Monogent 架构")
    case "chapter-10" => Some("第十章：记忆系统")
    case "chapter-11" => Some("第十一章：工具使用")
    case "chapter-12" => Some("第十二章：多智能体协作")
    case "chapter-13" => Some("第十三章：高级主题")
    case "chapter-14" => Some("第十四章：实战项目")
    case "chapter-15" => Some("第十五章：最佳实践")
    case "chapter-16" => Some("第十六章：未来展望")
    case _ => None
  }

  /** `chapter_titles.get(key, key)`. */
  function ChapterTitleOr(key: string): string
  {
    match ChapterTitle(key)
    case Some(t) => t
    case None => key
  }

  /** The entries for chapters `i`..16 whose directory holds at least one page, in number order. */
  function ChapterEntries(published: set<string>, i: nat): (r: seq<(string, string)>)
    requires 1 <= i <= 17
    ensures DistinctKeys(r)
    ensures forall j :: 0 <= j < |r| ==> |r[j].0| == 10 && r[j].0[..8] == "chapter-" && r[j].0 in published
    ensures forall j :: 0 <= j < |r| ==> exists n :: i <= n <= 16 && r[j].0 == ChapterKey(n)
    decreases 17 - i
  {
    if i > 16 then []
    else
      var rest := ChapterEntries(published, i + 1);
      if ChapterKey(i) in published then
        var r := [(ChapterKey(i), ChapterTitleOr(ChapterKey(i)))] + rest;
        forall j | 0 < j < |r| ensures r[j].0 != r[0].0 {
          var n :| i + 1 <= n <= 16 && rest[j - 1].0 == ChapterKey(n);
          if r[j].0 == r[0].0 { ChapterKeyInjective(i, n); }
        }
        assert forall j :: 0 < j < |r| ==> r[j] == rest[j - 1];
        r
      else rest
  }

  /** Putting the chapter entries from `n` on, one chapter at a time. */
  lemma ChapterEntriesStep(m: seq<(string, string)>, published: set<string>, n: nat)
    requires 1 <= n <= 16
    ensures PutAll(m, ChapterEntries(published, n)) ==
      if ChapterKey(n) in published then PutAll(Put(m, ChapterKey(n), ChapterTitleOr(ChapterKey(n))), ChapterEntries(published, n + 1))
      else PutAll(m, ChapterEntries(published, n + 1))
  {
    if ChapterKey(n) in published {
      PutAllCons(m, (ChapterKey(n), ChapterTitleOr(ChapterKey(n))), ChapterEntries(published, n + 1));
    }
  }

  /** The extra directories, in their fixed order, with their title-cased names. */
  function ExtraEntries(dirs: set<string>): (r: seq<(string, string)>)
    ensures DistinctKeys(r)
    ensures forall j :: 0 <= j < |r| ==> r[j].0 in dirs && (r[j].0 == "learning-map" || r[j].0 == "resources")
  {
    (if "learning-map" in dirs then [("learning-map", TitleCase(ReplaceChar("learning-map", '-', ' ')))] else []) +
    (if "resources" in dirs then [("resources", TitleCase(ReplaceChar("resources", '-', ' ')))] else [])
  }

  /** Putting the extra directories, one at a time. */
  lemma ExtraEntriesSteps(m: seq<(string, string)>, dirs: set<string>)
    ensures var lm := if "learning-map" in dirs then Put(m, "learning-map", TitleCase(ReplaceChar("learning-map", '-', ' '))) else m;
      PutAll(m, ExtraEntries(dirs)) ==
        if "resources" in dirs then Put(lm, "resources", TitleCase(ReplaceChar("resources", '-', ' '))) else lm
  {
    var a := if "learning-map" in dirs then [("learning-map", TitleCase(ReplaceChar("learning-map", '-', ' ')))] else [];
    var b := if "resources" in dirs then [("resources", TitleCase(ReplaceChar("resources", '-', ' ')))] else [];
    assert ExtraEntries(dirs) == a + b;
    if a != [] {
      PutAllCons(m, a[0], b);
      assert a + b == [a[0]] + b;
    }
    if b != [] {
      var lm := if "learning-map" in dirs then Put(m, "learning-map", TitleCase(ReplaceChar("learning-map", '-', ' '))) else m;
      PutAllCons(lm, b[0], []);
      assert b == [b[0]] + [];
    }
  }

  /** The first entry of the root meta. */
  const IndexEntry: (string, string) := ("index", "课程首页")

  /**
   * The root `_meta.json` of `generate_root_meta`: the course index, the
   * recorded root pages sorted by slug, the chapters 01..16 whose directory
   * holds a page (`published`), then `learning-map` and `resources` when
   * those directories exist (`dirs`).
   */
  function RootMeta(rootPages: seq<(string, string)>, published: set<string>, dirs: set<string>): (r: seq<(string, string)>)
    ensures r != [] && r[0].0 == "index"
  {
    var m := PutAll(PutAll(PutAll([IndexEntry], SortByName(rootPages, EntryKey)), ChapterEntries(published, 1)), ExtraEntries(dirs));
    assert Keys([IndexEntry]) <= Keys(m);
    assert Keys(m)[0] == "index";
    m
  }

  /** A key the root meta reserves for the index, a chapter or an extra directory. */
  predicate ReservedRootKey(k: string)
  {
    k == "index" || k == "learning-map" || k == "resources" || (|k| == 10 && k[..8] == "chapter-")
  }

  /** Entries none of whose keys is reserved. */
  predicate NoReservedKey(es: seq<(string, string)>)
  {
    forall j :: 0 <= j < |es| ==> !ReservedRootKey(es[j].0)
  }

  /** The index followed by the sorted root pages has distinct keys, none reserved after the first. */
  lemma SortedRootPagesFresh(rootPages: seq<(string, string)>)
    requires DistinctKeys(rootPages) && NoReservedKey(rootPages)
    ensures DistinctKeys([IndexEntry] + SortByName(rootPages, EntryKey))
    ensures NoReservedKey(SortByName(rootPages, EntryKey))
  {
    var sorted := SortByName(rootPages, EntryKey);
    DistinctPermutation(rootPages, sorted);
    forall j | 0 <= j < |sorted| ensures !ReservedRootKey(sorted[j].0) {
      assert sorted[j] in multiset(rootPages);
    }
    DistinctConcat([IndexEntry], sorted);
  }

  /** Adding the chapters after the index and the root pages keeps the keys distinct. */
  lemma ChaptersFresh(a: seq<(string, string)>, published: set<string>)
    requires |a| > 0 && a[0] == IndexEntry && DistinctKeys(a) && NoReservedKey(a[1..])
    ensures DistinctKeys(a + ChapterEntries(published, 1))
  {
    var chapters := ChapterEntries(published, 1);
    forall i, j | 0 <= i < |a| && 0 <= j < |chapters| ensures a[i].0 != chapters[j].0 {
      if i > 0 { assert a[i] == a[1..][i - 1]; }
    }
    DistinctConcat(a, chapters);
  }

  /** Adding the extra directories after everything else keeps the keys distinct. */
  lemma ExtrasFresh(a: seq<(string, string)>, published: set<string>, dirs: set<string>)
    requires |a| > 0 && a[0] == IndexEntry && DistinctKeys(a + ChapterEntries(published, 1)) && NoReservedKey(a[1..])
    ensures DistinctKeys(a + ChapterEntries(published, 1) + ExtraEntries(dirs))
  {
    var chapters := ChapterEntries(published, 1);
    var extras := ExtraEntries(dirs);
    var b := a + chapters;
    forall i, j | 0 <= i < |b| && 0 <= j < |extras| ensures b[i].0 != extras[j].0 {
      if 0 < i < |a| { assert b[i] == a[1..][i - 1]; }
      if i >= |a| { assert b[i] == chapters[i - |a|]; }
    }
    DistinctConcat(b, extras);
  }

  /**
   * When the root pages carry none of the reserved keys, the root meta is
   * the index, then the root pages in slug order, then the published
   * chapters in number order, then the extra directories.
   */
  lemma RootMetaOrder(rootPages: seq<(string, string)>, published: set<string>, dirs: set<string>)
    requires DistinctKeys(rootPages) && NoReservedKey(rootPages)
    ensures RootMeta(rootPages, published, dirs) ==
      [IndexEntry] + SortByName(rootPages, EntryKey) + ChapterEntries(published, 1) + ExtraEntries(dirs)
  {
    var sorted := SortByName(rootPages, EntryKey);
    SortedRootPagesFresh(rootPages);
    PutAllFresh([IndexEntry], sorted);
    var a := [IndexEntry] + sorted;
    assert a[1..] == sorted;
    ChaptersFresh(a, published);
    PutAllFresh(a, ChapterEntries(published, 1));
    ExtrasFresh(a, published, dirs);
    PutAllFresh(a + ChapterEntries(published, 1), ExtraEntries(dirs));
  }

  // ---------------------------------------------------------------------
  // The sync object
  // ---------------------------------------------------------------------

  /** The identity, as the key `sorted` uses on plain names. */
  function Name(s: string): string { s }

  /** Adds `chapter-01` to `chapter-16`, each when its directory holds a page. */
  method PutChapters(m: seq<(string, string)>, published: set<string>) returns (meta: seq<(string, string)>)
    ensures meta == PutAll(m, ChapterEntries(published, 1))
  {
    meta := m;
    for n := 1 to 17
      invariant PutAll(meta, ChapterEntries(published, n)) == PutAll(m, ChapterEntries(published, 1))
    {
      var key := ChapterKey(n);
      ChapterEntriesStep(meta, published, n);
      if key in published {
        meta := Put(meta, key, ChapterTitleOr(key));
      }
    }
  }

  /** Adds `learning-map` and `resources` when those directories exist. */
  method PutExtras(m: seq<(string, string)>, dirs: set<string>) returns (meta: seq<(string, string)>)
    ensures meta == PutAll(m, ExtraEntries(dirs))
  {
    meta := m;
    ExtraEntriesSteps(m, dirs);
    if "learning-map" in dirs {
      meta := Put(meta, "learning-map", TitleCase(ReplaceChar("learning-map", '-', ' ')));
    }
    if "resources" in dirs {
      meta := Put(meta, "resources", TitleCase(ReplaceChar("resources", '-', ' ')));
    }
  }

/**
   * `DeepracticeContentSync`: the statistics and recorded root pages it
   * updates, its two modes, and the page files of the target content root
   * (`pages`, paths relative to that root), which its writes extend.
   */
  class ContentSync {
    var stats: Stats
    var rootPagesMeta: seq<(string, string)>
    var pages: set<string>
    const dryRun: bool
    const fullSync: bool

    /** The recorded root pages form a dictionary. */
    ghost predicate Valid()
      reads this
    {
      DistinctKeys(rootPagesMeta)
    }

    constructor (dryRun: bool, fullSync: bool, pages: set<string>)
      ensures Valid()
      ensures this.dryRun == dryRun && this.fullSync == fullSync && this.pages == pages
      ensures stats == Stats(0, 0, 0, 0, 0) && rootPagesMeta == []
    {
      this.dryRun := dryRun;
      this.fullSync := fullSync;
      this.pages := pages;
      stats := Stats(0, 0, 0, 0, 0);
      rootPagesMeta := [];
    }

    /** `scan_source_chapter`: the chapter's pages in order; every file listed counts as scanned. */
    method ScanSourceChapter(dirName: string, names: seq<string>) returns (r: seq<FileMapping>)
      modifies this
      ensures r == ScannedChapter(dirName, names)
      ensures stats == old(stats).(scanned := old(stats).scanned + |names|)
      ensures rootPagesMeta == old(rootPagesMeta) && pages == old(pages)
    {
      var chapter := NormalizeChapterName(dirName);
      var ms: seq<FileMapping> := [];
      for i := 0 to |names|
        invariant ms == Mappings(chapter, names[..i])
        invariant stats == old(stats).(scanned := old(stats).scanned + i)
        invariant rootPagesMeta == old(rootPagesMeta) && pages == old(pages)
      {
        MappingsSnoc(chapter, names, i);
        stats := stats.(scanned := stats.scanned + 1);
        ms := ms + [MappingFor(chapter, names[i])];
      }
      assert names[..|names|] == names;
      r := SortByOrder(ms, MappingOrder);
    }

    /** `generate_chapter_meta`: the chapter's `_meta.json` object. */
    method GenerateChapterMeta(ms: seq<FileMapping>) returns (meta: seq<(string, string)>)
      ensures meta == ChapterMeta(ms)
    {
      meta := [];
      for i := 0 to |ms|
        invariant meta == ChapterMeta(ms[..i])
      {
        assert ms[..i + 1][..i] == ms[..i];
        meta := Put(meta, ms[i].slug, ms[i].title);
      }
      assert ms[..|ms|] == ms;
    }

    /**
     * `sync_file` as written: an up-to-date target is skipped, a failing
     * conversion is an error, otherwise the page is written (not in a dry
     * run) and then counted as updated when the target exists.
     */
    method SyncFile(m: FileMapping, sourceMtime: int, targetMtime: int, fails: bool)
      modifies this
      ensures stats == Tally(old(stats), SyncFileOutcome(m.target in old(pages), fullSync, dryRun, sourceMtime, targetMtime, fails))
      ensures pages == if dryRun || fails || UpToDate(m.target in old(pages), fullSync, sourceMtime, targetMtime)
        then old(pages) else old(pages) + {m.target}
      ensures rootPagesMeta == old(rootPagesMeta)
    {
      if m.target in pages && !fullSync {
        if sourceMtime <= targetMtime {
          stats := stats.(skipped := stats.skipped + 1);
          return;
        }
      }
      if fails {
        stats := stats.(errors := stats.errors + 1);
        return;
      }
      if !dryRun {
        pages := pages + {m.target};
      }
      if m.target in pages {
        stats := stats.(updated := stats.updated + 1);
      } else {
        stats := stats.(created := stats.created + 1);
      }
    }

    /** `sync_file` with the target's existence taken before the page is written. */
    method SyncFileChecked(m: FileMapping, sourceMtime: int, targetMtime: int, fails: bool)
      modifies this
      ensures stats == Tally(old(stats), SyncFileOutcomeChecked(m.target in old(pages), fullSync, sourceMtime, targetMtime, fails))
      ensures pages == if dryRun || fails || UpToDate(m.target in old(pages), fullSync, sourceMtime, targetMtime)
        then old(pages) else old(pages) + {m.target}
      ensures rootPagesMeta == old(rootPagesMeta)
    {
      var existed := m.target in pages;
      if existed && !fullSync && sourceMtime <= targetMtime {
        stats := stats.(skipped := stats.skipped + 1);
        return;
      }
      if fails {
        stats := stats.(errors := stats.errors + 1);
        return;
      }
      if !dryRun {
        pages := pages + {m.target};
      }
      if existed {
        stats := stats.(updated := stats.updated + 1);
      } else {
        stats := stats.(created := stats.created + 1);
      }
    }

    /** One root page of `sync_root_pages`: counted as scanned, then skipped if it is the index, else recorded or counted as an error. */
    method SyncRootPage(name: string, fails: set<string>)
      requires Valid()
      modifies this
      ensures Valid()
      ensures rootPagesMeta == if Publishes(name, fails) then Put(old(rootPagesMeta), RootSlug(name), Stem(name)) else old(rootPagesMeta)
      ensures stats == old(stats).(scanned := old(stats).scanned + 1,
                                   updated := old(stats).updated + (if Publishes(name, fails) then 1 else 0),
                                   errors := old(stats).errors + (if !IsIndexPage(name) && name in fails then 1 else 0))
      ensures pages == old(pages) + (if !dryRun && Publishes(name, fails) then {RootSlug(name) + ".mdx"} else {})
    {
      stats := stats.(scanned := stats.scanned + 1);
      if !IsIndexPage(name) {
        if name in fails {
          stats := stats.(errors := stats.errors + 1);
        } else {
          var title := Stem(name);
          PublishRootPage(GenerateSlug(title), title);
        }
      }
    }

    /** A converted root page: written (not in a dry run), recorded under its slug and counted as updated. */
    method PublishRootPage(slug: string, title: string)
      requires Valid()
      modifies this
      ensures Valid()
      ensures rootPagesMeta == Put(old(rootPagesMeta), slug, title)
      ensures stats == old(stats).(updated := old(stats).updated + 1)
      ensures pages == old(pages) + (if dryRun then {} else {slug + ".mdx"})
    {
      if !dryRun {
        pages := pages + {slug + ".mdx"};
      }
      rootPagesMeta := Put(rootPagesMeta, slug, title);
      stats := stats.(updated := stats.updated + 1);
    }

    /**
     * `sync_root_pages`: the root `.md` files in name order, the index left
     * to `sync_index`; each other page is converted, written (not in a dry
     * run), recorded in `root_pages_meta` and counted as updated, or counted
     * as an error when its conversion fails.
     */
    method SyncRootPages(names: seq<string>, fails: set<string>)
      requires Valid()
      modifies this
      ensures Valid()
      ensures var sorted := SortByName(names, Name);
        rootPagesMeta == RootPagesAfter(old(rootPagesMeta), sorted, fails) &&
        stats == old(stats).(scanned := old(stats).scanned + |names|,
                             updated := old(stats).updated + PublishedCount(sorted, fails),
                             errors := old(stats).errors + FailedCount(sorted, fails)) &&
        pages == old(pages) + (if dryRun then {} else RootTargets(sorted, fails))
    {
      var sorted := SortByName(names, Name);
      SyncRootPagesInOrder(sorted, fails);
    }

    /** The loop of `sync_root_pages` over the names once sorted. */
    method SyncRootPagesInOrder(sorted: seq<string>, fails: set<string>)
      requires Valid()
      modifies this
      ensures Valid()
      ensures rootPagesMeta == RootPagesAfter(old(rootPagesMeta), sorted, fails)
      ensures stats == old(stats).(scanned := old(stats).scanned + |sorted|,
                                   updated := old(stats).updated + PublishedCount(sorted, fails),
                                   errors := old(stats).errors + FailedCount(sorted, fails))
      ensures pages == old(pages) + (if dryRun then {} else RootTargets(sorted, fails))
    {
      for i := 0 to |sorted|
        invariant Valid()
        invariant rootPagesMeta == RootPagesAfter(old(rootPagesMeta), sorted[..i], fails)
        invariant stats == old(stats).(scanned := old(stats).scanned + i,
                                       updated := old(stats).updated + PublishedCount(sorted[..i], fails),
                                       errors := old(stats).errors + FailedCount(sorted[..i], fails))
        invariant pages == old(pages) + (if dryRun then {} else RootTargets(sorted[..i], fails))
      {
        RootPagesStep(old(rootPagesMeta), sorted, i, fails);
        SyncRootPage(sorted[i], fails);
      }
      assert sorted[..|sorted|] == sorted;
    }

    /**
     * `generate_root_meta`: the root `_meta.json` object, given the chapter
     * directories holding at least one page (`published`) and the
     * directories present under the target root (`dirs`).
     */
    method GenerateRootMeta(published: set<string>, dirs: set<string>) returns (meta: seq<(string, string)>)
      ensures meta == RootMeta(rootPagesMeta, published, dirs)
    {
      meta := PutEach([IndexEntry], SortByName(rootPagesMeta, EntryKey));
      meta := PutChapters(meta, published);
      meta := PutExtras(meta, dirs);
    }
  }
}
