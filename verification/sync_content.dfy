/**
 * The repair pass of `apps/docs/sync_content.py`: pages that a
 * `_meta.json` declares but that have no file are looked up in the source
 * tree by slug, converted and written, and entries that stay unfound can be
 * removed from their `_meta.json`. The content tree is a map from paths
 * (relative to the content root) to file texts plus a set of directory
 * paths; the source tree is a map from a source chapter directory to the
 * `.md` files it lists, in listing order.
 */
module SyncContent {
  import opened Options
  import opened Text
  import opened Meta
  import opened Markdown
  import MdxSanitizer

  // ---------------------------------------------------------------------
  // Fixed tables
  // ---------------------------------------------------------------------

  /** The number of entries of `chapter_mapping`. */
  const ChapterMappingSize: nat := 16

  /** Entry `i` of `chapter_mapping`: a content chapter and its source directory. */
  function ChapterMappingEntry(i: nat): (string, string)
    requires i < ChapterMappingSize
  {
    match i
    case 0 => ("chapter-01", "chapter01")
    case 1 => ("chapter-02", "chapter02")
    case 2 => ("chapter-03", "chapter03")
    case 3 => ("chapter-04", "chapter04")
    case 4 => ("chapter-05", "chapter05")
    case 5 => ("chapter-06", "chapter06")
    case 6 => ("chapter-07", "chapter07")
    case 7 => ("chapter-08", "chapter08")
    case 8 => ("chapter-09", "chapter09")
    case 9 => ("chapter-10", "chapter10")
    case 10 => ("chapter-11", "chapter11")
    case 11 => ("chapter-12", "chapter12")
    case 12 => ("chapter-13", "chapter13")
    case 13 => ("chapter-14", "chapter14")
    case 14 => ("chapter-15", "chapter15")
    case _ => ("chapter-16", "chapter16")
  }

  function SourceChapterFrom(chapter: string, i: nat): Option<string>
    requires i <= ChapterMappingSize
    decreases ChapterMappingSize - i
  {
    if i == ChapterMappingSize then None
    else if ChapterMappingEntry(i).0 == chapter then Some(ChapterMappingEntry(i).1)
    else SourceChapterFrom(chapter, i + 1)
  }

  /** `self.chapter_mapping.get(chapter)`. */
  function SourceChapter(chapter: string): Option<string>
  {
    SourceChapterFrom(chapter, 0)
  }

  /** The number of entries of `slug_patterns`. */
  const SlugPatternsSize: nat := 39

  /** Entry `i` of `slug_patterns`: a slug and the source stems it may come from. */
  function SlugPatternsEntry(i: nat): (r: (string, seq<string>))
    requires i < SlugPatternsSize
    ensures r.1 != []
  {
    match i
    case 0 => ("what-is-agent", ["1.1-什么是智能体", "什么是智能体"])
    case 1 => ("how-agent-works", ["1.2-智能体如何工作", "智能体如何工作"])
    case 2 => ("first-agent", ["1.3-构建第一个智能体", "构建第一个智能体"])
    case 3 => ("agent-ecosystem", ["1.4-智能体应用生态", "智能体应用生态"])
    case 4 => ("exercises", ["习题与讨论", "练习"])
    case 5 => ("agent-vs-llm", ["智能体与LLM的关系", "智能体与 LLM 的关系"])
    case 6 => ("symbolic-era", ["2.1-符号主义时代"])
    case 7 => ("rule-chatbot", ["2.2-构建规则聊天机器人"])
    case 8 => ("society-of-mind", ["2.3-心智社会理论"])
    case 9 => ("learning-paradigm", ["2.4-学习范式演进"])
    case 10 => ("agent-explosion", ["2.5-智能体爆发时代"])
    case 11 => ("language-model-history", ["3.1-语言模型简史"])
    case 12 => ("prompt-engineering", ["3.2-Prompt工程基础"])
    case 13 => ("llm-capabilities", ["3.3-LLM的能力与边界"])
    case 14 => ("llm-to-agent", ["3.4-从LLM到智能体架构"])
    case 15 => ("environment-setup", ["4.1-环境准备与基础工具"])
    case 16 => ("react-pattern", ["4.2-ReAct范式"])
    case 17 => ("plan-and-solve", ["4.3-Plan-and-Solve范式"])
    case 18 => ("reflection", ["4.4-Reflection范式"])
    case 19 => ("handwritten-to-framework", ["4.5-从手写到框架"])
    case 20 => ("summary", ["本章小结", "章节小结"])
    case 21 => ("promptx-quickstart", ["5.1-五分钟体验PromptX"])
    case 22 => ("semantic-gap", ["5.2-语义鸿沟"])
    case 23 => ("nuwa-role", ["5.3-Nuwa角色创建"])
    case 24 => ("luban-tool", ["5.4-Luban工具创建"])
    case 25 => ("engram-memory", ["5.5-Engram记忆网络"])
    case 26 => ("single-to-multi", ["6.1-从单智能体到多智能体"])
    case 27 => ("4p-theory", ["6.2-4P理论"])
    case 28 => ("ai-state-machine", ["6.3-AI任务状态机"])
    case 29 => ("pateoas", ["6.4-PATEOAS"])
    case 30 => ("ai-organization", ["6.5-AI组织化"])
    case 31 => ("agentx-intro", ["7.1-AgentX简介与设计哲学"])
    case 32 => ("quick-start", ["7.2-快速开始"])
    case 33 => ("core-concepts", ["7.3-核心概念"])
    case 34 => ("runtime-system", ["7.4-运行时系统"])
    case 35 => ("promptx-integration", ["7.5-与PromptX集成"])
    case 36 => ("monogent-deep", ["9.1-Monogent架构深入"])
    case 37 => ("experience-evolution", ["9.2-Experience与Evolution实战"])
    case _ => ("seven-stage-pipeline", ["9.3-七阶段管道实现"])
  }

  function PatternsFrom(slug: string, i: nat): (r: seq<string>)
    requires i <= SlugPatternsSize
    ensures r != []
    decreases SlugPatternsSize - i
  {
    if i == SlugPatternsSize then [slug]
    else if SlugPatternsEntry(i).0 == slug then SlugPatternsEntry(i).1
    else PatternsFrom(slug, i + 1)
  }

  /** `self.slug_patterns.get(slug, [slug])`: never empty, and `[slug]` for a slug the table does not name. */
  function Patterns(slug: string): (r: seq<string>)
    ensures r != []
  {
    PatternsFrom(slug, 0)
  }

  /** A slug the table does not name is its own only pattern. */
  lemma {:induction false} PatternsDefault(slug: string, i: nat)
    requires i <= SlugPatternsSize
    requires forall j :: i <= j < SlugPatternsSize ==> SlugPatternsEntry(j).0 != slug
    ensures PatternsFrom(slug, i) == [slug]
    decreases SlugPatternsSize - i
  {
    if i < SlugPatternsSize {
      PatternsDefault(slug, i + 1);
    }
  }

  // ---------------------------------------------------------------------
  // Source lookup (`find_source_file`)
  // ---------------------------------------------------------------------

  /** A `.md` file of a source chapter: its name and its text. */
  datatype MdFile = MdFile(name: string, text: string)

  /** `pattern in stem or stem in pattern`. */
  predicate Overlaps(pattern: string, stem: string)
  {
    IsSubstring(pattern, stem) || IsSubstring(stem, pattern)
  }

  /** What `re.sub(r'^\d+\.\d+-', '', stem)` leaves when `re.match(r'^\d+\.\d+-', stem)` holds. */
  function AfterNumber(stem: string): (r: Option<string>)
    ensures r.Some? ==> |r.value| < |stem| && r.value == stem[|stem| - |r.value|..]
  {
    var e1 := RunEnd(stem, 0, IsDigit);
    if 0 < e1 < |stem| && stem[e1] == '.' then
      var e2 := RunEnd(stem, e1 + 1, IsDigit);
      if e1 + 1 < e2 < |stem| && stem[e2] == '-' then Some(stem[e2 + 1..]) else None
    else None
  }

  /** `chinese_part == pattern or pattern in chinese_part`. */
  predicate MatchesAfterNumber(pattern: string, stem: string)
  {
    AfterNumber(stem).Some? && (AfterNumber(stem).value == pattern || IsSubstring(pattern, AfterNumber(stem).value))
  }

  /** Some pattern overlaps the stem. */
  predicate AnyOverlaps(patterns: seq<string>, stem: string)
  {
    exists k :: 0 <= k < |patterns| && Overlaps(patterns[k], stem)
  }

  /** Some pattern matches what follows the stem's number. */
  predicate AnyAfterNumber(patterns: seq<string>, stem: string)
  {
    exists k :: 0 <= k < |patterns| && MatchesAfterNumber(patterns[k], stem)
  }

  /** The file with this stem is the one `find_source_file` returns, if it reaches it. */
  predicate Accepts(patterns: seq<string>, stem: string)
  {
    Lower(stem) != "readme" && (AnyOverlaps(patterns, stem) || AnyAfterNumber(patterns, stem))
  }

  /** The acceptance test of one stem, as a value. */
  function Acceptor(patterns: seq<string>): string -> bool
  {
    stem => Accepts(patterns, stem)
  }

  /** The first file from `i` on whose stem satisfies `accept`. */
  function FirstAccepted(files: seq<MdFile>, accept: string -> bool, i: nat): (r: Option<nat>)
    requires i <= |files|
    ensures r.Some? ==> i <= r.value < |files| && accept(Stem(files[r.value].name))
    ensures r.Some? ==> forall j :: i <= j < r.value ==> !accept(Stem(files[j].name))
    ensures r.None? ==> forall j :: i <= j < |files| ==> !accept(Stem(files[j].name))
    decreases |files| - i
  {
    if i == |files| then None
    else if accept(Stem(files[i].name)) then Some(i)
    else FirstAccepted(files, accept, i + 1)
  }

  /**
   * The source file `find_source_file` returns: none when the chapter has no
   * source directory or that directory does not exist, otherwise the first
   * listed file whose stem is accepted.
   */
  function SourceFile(sources: map<string, seq<MdFile>>, chapter: string, slug: string): (r: Option<MdFile>)
  {
    match SourceChapter(chapter)
    case None => None
    case Some(dir) =>
      if dir !in sources then None
      else
        match FirstAccepted(sources[dir], Acceptor(Patterns(slug)), 0)
        case None => None
        case Some(i) => Some(sources[dir][i])
  }

  /**
   * The file found is never a README, and it is the first listed file of
   * the mapped source directory that some pattern overlaps; there is none
   * for a chapter without a source directory.
   */
  lemma SourceFileFirst(sources: map<string, seq<MdFile>>, chapter: string, slug: string)
    ensures SourceChapter(chapter).None? ==> SourceFile(sources, chapter, slug).None?
    ensures SourceFile(sources, chapter, slug).Some? ==>
      var dir := SourceChapter(chapter).value;
      var patterns := Patterns(slug);
      dir in sources && exists i :: (0 <= i < |sources[dir]| && SourceFile(sources, chapter, slug).value == sources[dir][i] &&
        Lower(Stem(sources[dir][i].name)) != "readme" && AnyOverlaps(patterns, Stem(sources[dir][i].name)) &&
        forall j :: 0 <= j < i ==> !Accepts(patterns, Stem(sources[dir][j].name)))
  {
    if SourceFile(sources, chapter, slug).Some? {
      var dir := SourceChapter(chapter).value;
      var i := FirstAccepted(sources[dir], Acceptor(Patterns(slug)), 0).value;
      assert Acceptor(Patterns(slug))(Stem(sources[dir][i].name));
      AcceptsByOverlap(Patterns(slug), Stem(sources[dir][i].name));
    }
  }

  /** The numeric-prefix fallback never finds a file the substring test has not already found. */
  lemma AfterNumberOverlaps(pattern: string, stem: string)
    requires MatchesAfterNumber(pattern, stem)
    ensures Overlaps(pattern, stem)
  {
    var rest := AfterNumber(stem).value;
    var k := |stem| - |rest|;
    if rest == pattern {
      SubstringAt(pattern, stem, k);
    } else {
      SubstringOfSuffix(pattern, stem, k);
    }
  }

  /** A stem is accepted exactly when it is not a README and some pattern overlaps it. */
  lemma AcceptsByOverlap(patterns: seq<string>, stem: string)
    ensures Accepts(patterns, stem) <==> Lower(stem) != "readme" && AnyOverlaps(patterns, stem)
  {
    if AnyAfterNumber(patterns, stem) {
      var k :| 0 <= k < |patterns| && MatchesAfterNumber(patterns[k], stem);
      AfterNumberOverlaps(patterns[k], stem);
    }
  }

  /**
   * The inner loops of `find_source_file` for one file: README is skipped,
   * then each pattern is tried as a substring either way, then each against
   * the part after a `N.N-` number.
   */
  method StemMatches(patterns: seq<string>, stem: string) returns (found: bool)
    ensures found == Accepts(patterns, stem)
  {
    if Lower(stem) == "readme" {
      return false;
    }
    for k := 0 to |patterns|
      invariant forall j :: 0 <= j < k ==> !Overlaps(patterns[j], stem)
    {
      if IsSubstring(patterns[k], stem) || IsSubstring(stem, patterns[k]) {
        return true;
      }
    }
    var rest := AfterNumber(stem);
    if rest.Some? {
      for k := 0 to |patterns|
        invariant forall j :: 0 <= j < k ==> !MatchesAfterNumber(patterns[j], stem)
      {
        if rest.value == patterns[k] || IsSubstring(patterns[k], rest.value) {
          return true;
        }
      }
    }
    return false;
  }

  /** `find_source_file`: the chapter's source directory is scanned in listing order, returning at the first accepted file. */
  method FindSourceFile(sources: map<string, seq<MdFile>>, chapter: string, slug: string) returns (r: Option<MdFile>)
    ensures r == SourceFile(sources, chapter, slug)
  {
    var dir := SourceChapter(chapter);
    if dir.None? || dir.value !in sources {
      return None;
    }
    var files := sources[dir.value];
    var patterns := Patterns(slug);
    for i := 0 to |files|
      invariant FirstAccepted(files, Acceptor(patterns), 0) == FirstAccepted(files, Acceptor(patterns), i)
    {
      var found := StemMatches(patterns, Stem(files[i].name));
      assert found == Acceptor(patterns)(Stem(files[i].name));
      if found {
        return Some(files[i]);
      }
    }
    return None;
  }

  // ---------------------------------------------------------------------
  // Page conversion (`convert_md_to_mdx`)
  // ---------------------------------------------------------------------

  /** `re.match(r'^---\n(.*?)\n---\n', content, re.DOTALL)`: an opening `---` line and a later `---` line. */
  predicate HasFrontmatter(content: string)
  {
    |content| >= 4 && content[..4] == "---\n" && IndexOfFrom(content, "\n---\n", 4).Some?
  }

  /** The frontmatter block this script writes: the values are not quoted. */
  function PlainFrontmatter(title: string, description: string): string
  {
    "---\ntitle: " + title + "\ndescription: " + description + "\n---\n\n"
  }

  /**
   * `convert_md_to_mdx`: a page that already has a frontmatter block is kept
   * as it is; any other page gets one, with the first `# ` heading (or the
   * title) as description, and is kept whole after it.
   */
  function ConvertMdToMdx(content: string, title: string): (r: string)
    ensures HasFrontmatter(content) ==> r == content
    ensures !HasFrontmatter(content) ==> |content| < |r| && r[|r| - |content|..] == content
    ensures !HasFrontmatter(content) ==> r[..|r| - |content|] == PlainFrontmatter(title, MdxSanitizer.Description(content, title))
    ensures HasFrontmatter(r)
  {
    if HasFrontmatter(content) then content
    else
      var fm := PlainFrontmatter(title, MdxSanitizer.Description(content, title));
      PrefixFrontmatter(title, MdxSanitizer.Description(content, title), content);
      assert (fm + content)[..|fm|] == fm;
      fm + content
  }

  /** Whatever follows it, the written block is recognised as a frontmatter block. */
  lemma PrefixFrontmatter(title: string, description: string, rest: string)
    ensures HasFrontmatter(PlainFrontmatter(title, description) + rest)
  {
    var fm := PlainFrontmatter(title, description);
    var s := fm + rest;
    var a := "---\ntitle: " + title + "\ndescription: " + description;
    var j := |a|;
    assert s == a + "\n---\n" + ("\n" + rest);
    assert s[j..j + 5] == "\n---\n";
    assert j >= 4 && s[..4] == a[..4] == "---\n";
    assert OccursAt(s, "\n---\n", j);
  }

  /** Converting a converted page changes nothing. */
  lemma ConvertIdempotent(content: string, title: string)
    ensures ConvertMdToMdx(ConvertMdToMdx(content, title), title) == ConvertMdToMdx(content, title)
  {
  }

  // ---------------------------------------------------------------------
  // Declared pages without a file (`check_missing_files`)
  // ---------------------------------------------------------------------

  /** The content tree: file texts and directories, by path relative to the content root. */
  datatype Tree = Tree(files: map<string, string>, dirs: set<string>)

  /** `Path.exists()`: a file or a directory. */
  predicate Exists(tree: Tree, path: string)
  {
    path in tree.files || path in tree.dirs
  }

  /** `content_dir / rel_dir / name` as a path relative to the content root; the root itself is `.`. */
  function Under(dir: string, name: string): string
  {
    if dir == "." then name else dir + "/" + name
  }

  /** A declared page that has no file: its `_meta.json` directory, its slug and its title value. */
  datatype MissingPage = MissingPage(dir: string, slug: string, title: Value)

  /** The entry `slug: v` of the `_meta.json` in `dir` is reported missing. */
  predicate PageMissing(tree: Tree, dir: string, slug: string, v: Value)
  {
    !IsDict(v) && slug != "index" && Under(dir, slug) !in tree.dirs &&
    !Exists(tree, Under(dir, slug + ".mdx")) && !Exists(tree, Under(dir, slug + ".md"))
  }

  /** The missing pages of one `_meta.json`, in its entry order. */
  function MissingIn(tree: Tree, dir: string, entries: seq<(string, Value)>): (r: seq<MissingPage>)
    ensures |r| <= |entries|
  {
    if entries == [] then []
    else
      var e := entries[|entries| - 1];
      MissingIn(tree, dir, entries[..|entries| - 1]) +
      (if PageMissing(tree, dir, e.0, e.1) then [MissingPage(dir, e.0, e.1)] else [])
  }

  /** The missing pages of all `_meta.json` files, in scan order. */
  function Missing(tree: Tree, metas: seq<(string, seq<(string, Value)>)>): seq<MissingPage>
  {
    if metas == [] then []
    else Missing(tree, metas[..|metas| - 1]) + MissingIn(tree, metas[|metas| - 1].0, metas[|metas| - 1].1)
  }

  /** A page is reported iff some `_meta.json` declares it and it passes every test. */
  lemma {:induction false} MissingInMembers(tree: Tree, dir: string, entries: seq<(string, Value)>, p: MissingPage)
    ensures p in MissingIn(tree, dir, entries) <==>
      p.dir == dir && (p.slug, p.title) in entries && PageMissing(tree, dir, p.slug, p.title)
  {
    if entries != [] {
      var front := entries[..|entries| - 1];
      MissingInMembers(tree, dir, front, p);
      assert entries == front + [entries[|entries| - 1]];
    }
  }

  /** Some `_meta.json` of the scan, in the page's directory, declares the page's entry. */
  predicate Declares(metas: seq<(string, seq<(string, Value)>)>, p: MissingPage)
  {
    exists i :: 0 <= i < |metas| && metas[i].0 == p.dir && (p.slug, p.title) in metas[i].1
  }

  lemma DeclaresSnoc(metas: seq<(string, seq<(string, Value)>)>, p: MissingPage)
    requires metas != []
    ensures var n := |metas| - 1;
      Declares(metas, p) <==> Declares(metas[..n], p) || (metas[n].0 == p.dir && (p.slug, p.title) in metas[n].1)
  {
    var n := |metas| - 1;
    if Declares(metas[..n], p) {
      var i :| 0 <= i < n && metas[..n][i].0 == p.dir && (p.slug, p.title) in metas[..n][i].1;
      assert metas[i] == metas[..n][i];
    }
    if Declares(metas, p) {
      var i :| 0 <= i < |metas| && metas[i].0 == p.dir && (p.slug, p.title) in metas[i].1;
      if i < n {
        assert metas[..n][i] == metas[i];
      }
    }
  }

  lemma {:induction false} MissingMembers(tree: Tree, metas: seq<(string, seq<(string, Value)>)>, p: MissingPage)
    ensures p in Missing(tree, metas) <==> Declares(metas, p) && PageMissing(tree, p.dir, p.slug, p.title)
  {
    if metas != [] {
      var n := |metas| - 1;
      MissingMembers(tree, metas[..n], p);
      MissingInMembers(tree, metas[n].0, metas[n].1, p);
      DeclaresSnoc(metas, p);
    }
  }

  /** The entries of one `_meta.json` in turn. */
  method CheckMeta(tree: Tree, dir: string, entries: seq<(string, Value)>) returns (missing: seq<MissingPage>)
    ensures missing == MissingIn(tree, dir, entries)
  {
    missing := [];
    for j := 0 to |entries|
      invariant missing == MissingIn(tree, dir, entries[..j])
    {
      var slug := entries[j].0;
      var title := entries[j].1;
      assert entries[..j + 1][..j] == entries[..j];
      if IsDict(title) || slug == "index" || Under(dir, slug) in tree.dirs {
        continue;
      }
      if !Exists(tree, Under(dir, slug + ".mdx")) && !Exists(tree, Under(dir, slug + ".md")) {
        missing := missing + [MissingPage(dir, slug, title)];
      }
    }
    assert entries[..|entries|] == entries;
  }

  /** `check_missing_files`: every `_meta.json` in scan order, every entry in its order. */
  method CheckMissingFiles(tree: Tree, metas: seq<(string, seq<(string, Value)>)>) returns (missing: seq<MissingPage>)
    ensures missing == Missing(tree, metas)
  {
    missing := [];
    for i := 0 to |metas|
      invariant missing == Missing(tree, metas[..i])
    {
      var found := CheckMeta(tree, metas[i].0, metas[i].1);
      assert metas[..i + 1][..i] == metas[..i];
      missing := missing + found;
    }
    assert metas[..|metas|] == metas;
  }

  // ---------------------------------------------------------------------
  // The syncer (`ContentSyncer`)
  // ---------------------------------------------------------------------

  /**
   * The title as the f-string writes it (`str(title)`): a string as it is,
   * a boolean as `True`/`False`, an integer in decimal, `null` as `None`.
   * A float keeps its JSON text, and an array or object is written as an
   * empty one.
   */
  function TitleText(v: Value): (r: string)
    ensures v.Str? ==> r == v.s
    ensures !v.Str? && !v.Float? ==> r != [] && NoNewline(r)
    ensures v.Bool? ==> (r == "True" <==> v.b)
    ensures v.Int? ==> (r[0] == '-' <==> v.i < 0)
    ensures v.Int? && v.i >= 0 ==> AllDigits(r) && DigitsValue(r) == v.i
  {
    match v
    case Str(s) => s
    case Bool(b) => if b then "True" else "False"
    case Int(i) => IntToString(i)
    case Float(t) => t
    case Null => "None"
    case Array => "[]"
    case Object => "{}"
  }

  /** The (chapter, slug) pairs of the missing pages with no source file, in order. */
  function Unfound(sources: map<string, seq<MdFile>>, missing: seq<MissingPage>): (r: seq<(string, string)>)
    ensures |r| <= |missing|
  {
    if missing == [] then []
    else
      var p := missing[|missing| - 1];
      Unfound(sources, missing[..|missing| - 1]) + (if SourceFile(sources, p.dir, p.slug).None? then [(p.dir, p.slug)] else [])
  }

  /** The target paths of the missing pages that have a source file, in order. */
  function Synced(sources: map<string, seq<MdFile>>, missing: seq<MissingPage>): (r: seq<string>)
    ensures |r| <= |missing|
  {
    if missing == [] then []
    else
      var p := missing[|missing| - 1];
      Synced(sources, missing[..|missing| - 1]) + (if SourceFile(sources, p.dir, p.slug).Some? then [Under(p.dir, p.slug + ".mdx")] else [])
  }

  lemma AppendAssoc<T>(a: seq<T>, b: seq<T>, c: seq<T>)
    ensures a + (b + c) == (a + b) + c
  {
  }

  /** One more missing page adds itself to exactly one of the two lists. */
  lemma SyncStep(sources: map<string, seq<MdFile>>, missing: seq<MissingPage>, i: nat)
    requires i < |missing|
    ensures Unfound(sources, missing[..i + 1]) == Unfound(sources, missing[..i]) +
      (if SourceFile(sources, missing[i].dir, missing[i].slug).None? then [(missing[i].dir, missing[i].slug)] else [])
    ensures Synced(sources, missing[..i + 1]) == Synced(sources, missing[..i]) +
      (if SourceFile(sources, missing[i].dir, missing[i].slug).Some? then [Under(missing[i].dir, missing[i].slug + ".mdx")] else [])
  {
    assert missing[..i + 1][..i] == missing[..i];
  }

  /** Every missing page is either synced or unfound. */
  lemma {:induction false} SyncedOrUnfound(sources: map<string, seq<MdFile>>, missing: seq<MissingPage>)
    ensures |Synced(sources, missing)| + |Unfound(sources, missing)| == |missing|
  {
    if missing != [] {
      SyncedOrUnfound(sources, missing[..|missing| - 1]);
    }
  }

  /** `unfound_by_chapter[chapter].append(slug)`, creating the list on first use. */
  function AddSlug(groups: seq<(string, seq<string>)>, chapter: string, slug: string): (r: seq<(string, seq<string>)>)
    ensures chapter in Keys(r)
    ensures chapter !in Keys(groups) ==> r == groups + [(chapter, [slug])]
    ensures DistinctKeys(groups) ==> DistinctKeys(r)
    ensures DistinctKeys(groups) ==> Get(r, chapter) == (if chapter in Keys(groups) then Get(groups, chapter) else []) + [slug]
    ensures forall c :: c != chapter ==> (c in Keys(r) <==> c in Keys(groups))
  {
    var v := (if chapter in Keys(groups) then Get(groups, chapter) else []) + [slug];
    assert chapter !in Keys(groups) ==> v == [slug];
    PutFacts(groups, chapter, v);
    Put(groups, chapter, v)
  }

  /** `d[k] = v` keeps every other key, and with distinct keys stores `v` under `k`. */
  lemma PutFacts<V>(m: seq<(string, V)>, k: string, v: V)
    ensures forall c :: c != k ==> (c in Keys(Put(m, k, v)) <==> c in Keys(m))
    ensures DistinctKeys(m) ==> Get(Put(m, k, v), k) == v
  {
    forall c | c != k ensures c in Keys(Put(m, k, v)) <==> c in Keys(m) {
      PutKeys(m, k, v, c);
    }
    if DistinctKeys(m) {
      PutStored(m, k, v);
    }
  }

  /** With distinct keys, `d[k] = v` stores `v` under `k`. */
  lemma PutStored<V>(m: seq<(string, V)>, k: string, v: V)
    requires DistinctKeys(m)
    ensures Get(Put(m, k, v), k) == v
  {
    var r := Put(m, k, v);
    if k in Keys(m) {
      var i :| 0 <= i < |m| && m[i].0 == k;
      assert r[i] == (k, v);
    } else {
      assert r[|m|] == (k, v);
    }
    GetIs(r, k, v);
  }

  /** With distinct keys, `d[k] = v` leaves the value under any other key alone. */
  lemma PutOther<V>(m: seq<(string, V)>, k: string, v: V, c: string)
    requires DistinctKeys(m) && c != k && c in Keys(m)
    ensures c in Keys(Put(m, k, v)) && Get(Put(m, k, v), c) == Get(m, c)
  {
    var r := Put(m, k, v);
    var i :| 0 <= i < |m| && m[i] == (c, Get(m, c));
    if k in Keys(m) {
      assert r[i] == m[i];
    } else {
      assert r[i] == m[i];
    }
    GetIs(r, c, Get(m, c));
  }

  /** `AddSlug` leaves the list of any other chapter alone. */
  lemma AddSlugOther(groups: seq<(string, seq<string>)>, chapter: string, slug: string, c: string)
    requires DistinctKeys(groups) && c != chapter && c in Keys(groups)
    ensures Get(AddSlug(groups, chapter, slug), c) == Get(groups, c)
  {
    PutOther(groups, chapter, (if chapter in Keys(groups) then Get(groups, chapter) else []) + [slug], c);
  }

  /** `unfound_by_chapter` built from the (chapter, slug) pairs in order. */
  function Grouped(pairs: seq<(string, string)>): (r: seq<(string, seq<string>)>)
    ensures DistinctKeys(r)
  {
    if pairs == [] then []
    else
      var last := pairs[|pairs| - 1];
      AddSlug(Grouped(pairs[..|pairs| - 1]), last.0, last.1)
  }

  /** The slugs paired with `chapter`, in order. */
  function SlugsOf(pairs: seq<(string, string)>, chapter: string): seq<string>
  {
    if pairs == [] then []
    else
      var last := pairs[|pairs| - 1];
      SlugsOf(pairs[..|pairs| - 1], chapter) + (if last.0 == chapter then [last.1] else [])
  }

  /**
   * The grouping has a list for exactly the chapters that occur, and each
   * list holds that chapter's slugs in the order they came.
   */
  lemma {:induction false} GroupedSpec(pairs: seq<(string, string)>, c: string)
    ensures c in Keys(Grouped(pairs)) <==> Occurs(pairs, c)
    ensures c in Keys(Grouped(pairs)) ==> Get(Grouped(pairs), c) == SlugsOf(pairs, c)
    decreases |pairs|
  {
    if pairs != [] {
      GroupedSpec(pairs[..|pairs| - 1], c);
      if c == pairs[|pairs| - 1].0 {
        GroupedSame(pairs, c);
      } else {
        GroupedOther(pairs, c);
      }
    }
  }

  /** The chapter `c` is paired with some slug. */
  predicate Occurs(pairs: seq<(string, string)>, c: string)
  {
    exists i :: 0 <= i < |pairs| && pairs[i].0 == c
  }

  /** Step of `GroupedSpec` when the last pair is of chapter `c`. */
  lemma GroupedSame(pairs: seq<(string, string)>, c: string)
    requires pairs != [] && pairs[|pairs| - 1].0 == c
    requires var init := pairs[..|pairs| - 1];
      (c in Keys(Grouped(init)) <==> Occurs(init, c)) &&
      (c in Keys(Grouped(init)) ==> Get(Grouped(init), c) == SlugsOf(init, c))
    ensures c in Keys(Grouped(pairs)) && Occurs(pairs, c)
    ensures Get(Grouped(pairs), c) == SlugsOf(pairs, c)
  {
    var init := pairs[..|pairs| - 1];
    if c !in Keys(Grouped(init)) {
      SlugsOfAbsent(init, c);
    }
  }

  /** Step of `GroupedSpec` when the last pair is of another chapter. */
  lemma GroupedOther(pairs: seq<(string, string)>, c: string)
    requires pairs != [] && pairs[|pairs| - 1].0 != c
    requires var init := pairs[..|pairs| - 1];
      (c in Keys(Grouped(init)) <==> Occurs(init, c)) &&
      (c in Keys(Grouped(init)) ==> Get(Grouped(init), c) == SlugsOf(init, c))
    ensures c in Keys(Grouped(pairs)) <==> Occurs(pairs, c)
    ensures c in Keys(Grouped(pairs)) ==> Get(Grouped(pairs), c) == SlugsOf(pairs, c)
  {
    var init := pairs[..|pairs| - 1];
    var last := pairs[|pairs| - 1];
    OccursOther(pairs, c);
    assert SlugsOf(pairs, c) == SlugsOf(init, c) + [];
    var g := Grouped(init);
    assert Grouped(pairs) == AddSlug(g, last.0, last.1);
    if c in Keys(g) {
      AddSlugOther(g, last.0, last.1, c);
    }
  }

  /** A last pair of another chapter does not change whether `c` occurs. */
  lemma OccursOther(pairs: seq<(string, string)>, c: string)
    requires pairs != [] && pairs[|pairs| - 1].0 != c
    ensures Occurs(pairs, c) <==> Occurs(pairs[..|pairs| - 1], c)
  {
    var init := pairs[..|pairs| - 1];
    if Occurs(pairs, c) {
      var i :| 0 <= i < |pairs| && pairs[i].0 == c;
      assert i < |init| && init[i].0 == c;
    }
    if Occurs(init, c) {
      var i :| 0 <= i < |init| && init[i].0 == c;
      assert pairs[i].0 == c;
    }
  }

  /** A chapter that never occurs has no slugs. */
  lemma {:induction false} SlugsOfAbsent(pairs: seq<(string, string)>, c: string)
    requires !Occurs(pairs, c)
    ensures SlugsOf(pairs, c) == []
    decreases |pairs|
  {
    if pairs != [] {
      SlugsOfAbsent(pairs[..|pairs| - 1], c);
    }
  }

  /** One more missing page: when it has no source file its slug joins its chapter's list. */
  lemma GroupedStep(sources: map<string, seq<MdFile>>, missing: seq<MissingPage>, i: nat)
    requires i < |missing|
    ensures Grouped(Unfound(sources, missing[..i + 1])) ==
      if SourceFile(sources, missing[i].dir, missing[i].slug).None? then
        AddSlug(Grouped(Unfound(sources, missing[..i])), missing[i].dir, missing[i].slug)
      else Grouped(Unfound(sources, missing[..i]))
  {
    SyncStep(sources, missing, i);
    var u := Unfound(sources, missing[..i]);
    var e := (missing[i].dir, missing[i].slug);
    if SourceFile(sources, missing[i].dir, missing[i].slug).None? {
      assert Unfound(sources, missing[..i + 1]) == u + [e];
      GroupedSnoc(u, e);
    } else {
      assert Unfound(sources, missing[..i + 1]) == u + [] == u;
    }
  }

  /** One more pair adds its slug to its chapter's list. */
  lemma GroupedSnoc(pairs: seq<(string, string)>, e: (string, string))
    ensures Grouped(pairs + [e]) == AddSlug(Grouped(pairs), e.0, e.1)
  {
    assert (pairs + [e])[..|pairs|] == pairs;
  }

  /** The slugs of a list, as a set. */
  function SlugSet(slugs: seq<string>): set<string>
  {
    set x | x in slugs
  }

  /** The deletion loop of `fix_meta_file`: `del content[slug]` for each listed slug the object holds. */
  method RemoveSlugs(original: seq<(string, Value)>, slugs: seq<string>) returns (content: seq<(string, Value)>)
    ensures content == Without(original, SlugSet(slugs))
  {
    content := original;
    WithoutNone(original, {});
    assert SlugSet(slugs[..0]) == {};
    for i := 0 to |slugs|
      invariant content == Without(original, SlugSet(slugs[..i]))
    {
      var slug := slugs[i];
      assert SlugSet(slugs[..i + 1]) == SlugSet(slugs[..i]) + {slug} by {
        assert slugs[..i + 1] == slugs[..i] + [slug];
      }
      WithoutWithout(original, SlugSet(slugs[..i]), {slug});
      if slug in Keys(content) {
        content := Without(content, {slug});
      } else {
        WithoutNone(content, {slug});
      }
    }
    assert slugs[..|slugs|] == slugs;
  }

  /**
   * The pages after syncing `missing` in turn (outside dry-run mode): each
   * page with a source file gets its converted text at `<chapter>/<slug>.mdx`.
   */
  function SyncWrites(files: map<string, string>, sources: map<string, seq<MdFile>>, missing: seq<MissingPage>): map<string, string>
  {
    if missing == [] then files
    else
      var p := missing[|missing| - 1];
      var prev := SyncWrites(files, sources, missing[..|missing| - 1]);
      var source := SourceFile(sources, p.dir, p.slug);
      if source.None? then prev
      else prev[Under(p.dir, p.slug + ".mdx") := ConvertMdToMdx(source.value.text, TitleText(p.title))]
  }

  /** Syncing writes exactly the targets recorded as synced, and no other page. */
  lemma {:induction false} SyncWritesKeys(files: map<string, string>, sources: map<string, seq<MdFile>>, missing: seq<MissingPage>, k: string)
    ensures k in SyncWrites(files, sources, missing) <==> k in files || k in Synced(sources, missing)
    ensures k !in Synced(sources, missing) && k in files ==> SyncWrites(files, sources, missing)[k] == files[k]
    decreases |missing|
  {
    if missing != [] {
      SyncWritesKeys(files, sources, missing[..|missing| - 1], k);
    }
  }

  /** One more missing page: its converted text is written when it has a source file. */
  lemma SyncWritesStep(files: map<string, string>, sources: map<string, seq<MdFile>>, missing: seq<MissingPage>, i: nat)
    requires i < |missing|
    ensures var p := missing[i];
      var source := SourceFile(sources, p.dir, p.slug);
      SyncWrites(files, sources, missing[..i + 1]) == if source.None? then SyncWrites(files, sources, missing[..i])
        else SyncWrites(files, sources, missing[..i])[Under(p.dir, p.slug + ".mdx") := ConvertMdToMdx(source.value.text, TitleText(p.title))]
  {
    assert missing[..i + 1][..i] == missing[..i];
  }

  /**
   * The `_meta.json` files after `fix_meta_file` has run for each group in
   * turn whose chapter has one, and the paths recorded as fixed.
   */
  function FixMetas(metas: map<string, seq<(string, Value)>>, groups: seq<(string, seq<string>)>, dryRun: bool):
    (r: (map<string, seq<(string, Value)>>, seq<string>))
    ensures r.0.Keys == metas.Keys
    ensures dryRun ==> r.0 == metas
    ensures forall i :: 0 <= i < |r.1| ==> r.1[i] in metas
  {
    if groups == [] then (metas, [])
    else
      var prev := FixMetas(metas, groups[..|groups| - 1], dryRun);
      var g := groups[|groups| - 1];
      var path := Under(g.0, "_meta.json");
      if path in prev.0 then
        var kept := Without(prev.0[path], SlugSet(g.1));
        var changed := |kept| < |prev.0[path]|;
        ((if changed && !dryRun then prev.0[path := kept] else prev.0), prev.1 + (if changed then [path] else []))
      else prev
  }

  /** A `_meta.json` recorded as fixed lost at least one entry, unless the run was dry. */
  lemma {:induction false} FixMetasShrink(metas: map<string, seq<(string, Value)>>, groups: seq<(string, seq<string>)>, path: string)
    requires path in metas && path !in FixMetas(metas, groups, false).1
    ensures FixMetas(metas, groups, false).0[path] == metas[path]
    decreases |groups|
  {
    if groups != [] {
      FixMetasShrink(metas, groups[..|groups| - 1], path);
    }
  }

  /** Different chapters have different `_meta.json` paths. */
  lemma UnderMetaInjective(c: string, d: string)
    requires Under(c, "_meta.json") == Under(d, "_meta.json")
    ensures c == d
  {
    var n := "_meta.json";
    if c != "." && d != "." {
      assert c == (c + "/" + n)[..|c|] && d == (d + "/" + n)[..|d|];
    }
  }

  /** A `_meta.json` no group names is left alone and never recorded. */
  lemma {:induction false} FixMetasUntouched(metas: map<string, seq<(string, Value)>>, groups: seq<(string, seq<string>)>, dryRun: bool, p: string)
    requires p in metas
    requires forall i :: 0 <= i < |groups| ==> Under(groups[i].0, "_meta.json") != p
    ensures FixMetas(metas, groups, dryRun).0[p] == metas[p] && p !in FixMetas(metas, groups, dryRun).1
    decreases |groups|
  {
    if groups != [] {
      FixMetasUntouched(metas, groups[..|groups| - 1], dryRun, p);
    }
  }

  /**
   * On a real run, the `_meta.json` of group `k`'s chapter ends up as its
   * old entries less that group's slugs, and it is recorded as fixed
   * exactly when that removed something.
   */
  lemma {:induction false} FixMetasRepairs(metas: map<string, seq<(string, Value)>>, groups: seq<(string, seq<string>)>, k: nat)
    requires DistinctKeys(groups) && k < |groups|
    requires Under(groups[k].0, "_meta.json") in metas
    ensures var p := Under(groups[k].0, "_meta.json");
      var kept := Without(metas[p], SlugSet(groups[k].1));
      FixMetas(metas, groups, false).0[p] == kept && (p in FixMetas(metas, groups, false).1 <==> |kept| < |metas[p]|)
    decreases |groups|
  {
    var p := Under(groups[k].0, "_meta.json");
    var init := groups[..|groups| - 1];
    if k == |groups| - 1 {
      forall i | 0 <= i < |init| ensures Under(init[i].0, "_meta.json") != p {
        if Under(init[i].0, "_meta.json") == p {
          UnderMetaInjective(init[i].0, groups[k].0);
        }
      }
      FixMetasUntouched(metas, init, false, p);
      var kept := Without(metas[p], SlugSet(groups[k].1));
      WithoutShorter(metas[p], SlugSet(groups[k].1));
      if |kept| == |metas[p]| {
        WithoutNone(metas[p], SlugSet(groups[k].1));
      }
      assert groups[..|groups| - 1] == init;
    } else {
      FixMetasRepairs(metas, init, k);
      var q := Under(groups[|groups| - 1].0, "_meta.json");
      if q == p {
        UnderMetaInjective(groups[|groups| - 1].0, groups[k].0);
      }
    }
  }

  /**
   * The run's repair: with the groups built from the unfound pages, the
   * `_meta.json` of a chapter with unfound pages loses exactly those
   * pages' slugs, and it is recorded as fixed exactly when one was there.
   */
  lemma FixMetasUnfound(metas: map<string, seq<(string, Value)>>, pairs: seq<(string, string)>, c: string)
    requires Occurs(pairs, c) && Under(c, "_meta.json") in metas
    ensures var p := Under(c, "_meta.json");
      var kept := Without(metas[p], SlugSet(SlugsOf(pairs, c)));
      FixMetas(metas, Grouped(pairs), false).0[p] == kept &&
      (p in FixMetas(metas, Grouped(pairs), false).1 <==> exists i :: 0 <= i < |metas[p]| && metas[p][i].0 in SlugSet(SlugsOf(pairs, c)))
  {
    var groups := Grouped(pairs);
    GroupedSpec(pairs, c);
    var k :| 0 <= k < |groups| && groups[k] == (c, Get(groups, c));
    FixMetasRepairs(metas, groups, k);
    WithoutShorter(metas[Under(c, "_meta.json")], SlugSet(SlugsOf(pairs, c)));
  }

  class ContentSyncer {
    /** The source tree: each source chapter directory with its `.md` files in listing order. */
    const sources: map<string, seq<MdFile>>
    const dirs: set<string>
    const dryRun: bool
    const fixMeta: bool
    var files: map<string, string>
    var metaFiles: map<string, seq<(string, Value)>>
    var syncedFiles: seq<string>
    var unfoundFiles: seq<(string, string)>
    var fixedMetas: seq<string>

    constructor (sources: map<string, seq<MdFile>>, dirs: set<string>, files: map<string, string>,
                 metaFiles: map<string, seq<(string, Value)>>, dryRun: bool, fixMeta: bool)
      ensures this.sources == sources && this.dirs == dirs && this.files == files && this.metaFiles == metaFiles
      ensures this.dryRun == dryRun && this.fixMeta == fixMeta
      ensures syncedFiles == [] && unfoundFiles == [] && fixedMetas == []
    {
      this.sources := sources;
      this.dirs := dirs;
      this.files := files;
      this.metaFiles := metaFiles;
      this.dryRun := dryRun;
      this.fixMeta := fixMeta;
      syncedFiles := [];
      unfoundFiles := [];
      fixedMetas := [];
    }

    /**
     * `sync_file`: without a source file the page is recorded as unfound;
     * otherwise its converted text is written (unless in dry-run mode) to
     * `<chapter>/<slug>.mdx`, and the target is recorded as synced.
     */
    method SyncFile(chapter: string, slug: string, title: string) returns (synced: bool)
      modifies this
      ensures synced <==> SourceFile(sources, chapter, slug).Some?
      ensures unfoundFiles == old(unfoundFiles) + (if synced then [] else [(chapter, slug)])
      ensures syncedFiles == old(syncedFiles) + (if synced then [Under(chapter, slug + ".mdx")] else [])
      ensures !synced ==> files == old(files)
      ensures synced ==> files == if dryRun then old(files)
        else old(files)[Under(chapter, slug + ".mdx") := ConvertMdToMdx(SourceFile(sources, chapter, slug).value.text, title)]
      ensures metaFiles == old(metaFiles) && fixedMetas == old(fixedMetas)
    {
      var source := FindSourceFile(sources, chapter, slug);
      if source.None? {
        unfoundFiles := unfoundFiles + [(chapter, slug)];
        synced := false;
      } else {
        WriteTarget(Under(chapter, slug + ".mdx"), ConvertMdToMdx(source.value.text, title));
        synced := true;
      }
    }

    /** The synced branch of `sync_file`: the text goes to `target` unless in dry-run mode, and `target` is recorded. */
    method WriteTarget(target: string, text: string)
      modifies this
      ensures files == if dryRun then old(files) else old(files)[target := text]
      ensures syncedFiles == old(syncedFiles) + [target]
      ensures unfoundFiles == old(unfoundFiles) && metaFiles == old(metaFiles) && fixedMetas == old(fixedMetas)
    {
      if !dryRun {
        files := files[target := text];
      }
      syncedFiles := syncedFiles + [target];
    }

    /**
     * `fix_meta_file`: the listed slugs are deleted from the `_meta.json`; the
     * file is written (unless in dry-run mode) and recorded only when some
     * entry went.
     */
    method FixMetaFile(metaPath: string, slugs: seq<string>)
      requires metaPath in metaFiles
      modifies this
      ensures var kept := Without(old(metaFiles)[metaPath], SlugSet(slugs));
        var changed := |kept| < |old(metaFiles)[metaPath]|;
        metaFiles == (if changed && !dryRun then old(metaFiles)[metaPath := kept] else old(metaFiles)) &&
        fixedMetas == old(fixedMetas) + (if changed then [metaPath] else [])
      ensures files == old(files) && syncedFiles == old(syncedFiles) && unfoundFiles == old(unfoundFiles)
    {
      var original := metaFiles[metaPath];
      var content := RemoveSlugs(original, slugs);
      if |content| < |original| {
        if !dryRun {
          metaFiles := metaFiles[metaPath := content];
        }
        fixedMetas := fixedMetas + [metaPath];
      }
    }

    /** Step 3 of `run`: each missing page is synced; the unfound ones are grouped by chapter. */
    method SyncAll(missing: seq<MissingPage>) returns (unfoundBy: seq<(string, seq<string>)>)
      modifies this
      ensures unfoundFiles == old(unfoundFiles) + Unfound(sources, missing)
      ensures syncedFiles == old(syncedFiles) + Synced(sources, missing)
      ensures files == if dryRun then old(files) else SyncWrites(old(files), sources, missing)
      ensures unfoundBy == Grouped(Unfound(sources, missing))
      ensures metaFiles == old(metaFiles) && fixedMetas == old(fixedMetas)
    {
      unfoundBy := [];
      for i := 0 to |missing|
        invariant unfoundFiles == old(unfoundFiles) + Unfound(sources, missing[..i])
        invariant syncedFiles == old(syncedFiles) + Synced(sources, missing[..i])
        invariant files == if dryRun then old(files) else SyncWrites(old(files), sources, missing[..i])
        invariant unfoundBy == Grouped(Unfound(sources, missing[..i]))
        invariant metaFiles == old(metaFiles) && fixedMetas == old(fixedMetas)
      {
        var p := missing[i];
        var synced := SyncFile(p.dir, p.slug, TitleText(p.title));
        SyncStep(sources, missing, i);
        AppendAssoc(old(unfoundFiles), Unfound(sources, missing[..i]), if synced then [] else [(p.dir, p.slug)]);
        AppendAssoc(old(syncedFiles), Synced(sources, missing[..i]), if synced then [Under(p.dir, p.slug + ".mdx")] else []);
        SyncWritesStep(old(files), sources, missing, i);
        GroupedStep(sources, missing, i);
        if !synced {
          unfoundBy := AddSlug(unfoundBy, p.dir, p.slug);
        }
      }
      assert missing[..|missing|] == missing;
    }

    /** Step 4 of `run`: the `_meta.json` of each chapter with unfound pages is repaired, when it exists. */
    method FixAll(unfoundBy: seq<(string, seq<string>)>)
      modifies this
      ensures metaFiles == FixMetas(old(metaFiles), unfoundBy, dryRun).0
      ensures fixedMetas == old(fixedMetas) + FixMetas(old(metaFiles), unfoundBy, dryRun).1
      ensures unfoundFiles == old(unfoundFiles) && syncedFiles == old(syncedFiles) && files == old(files)
    {
      for g := 0 to |unfoundBy|
        invariant metaFiles == FixMetas(old(metaFiles), unfoundBy[..g], dryRun).0
        invariant fixedMetas == old(fixedMetas) + FixMetas(old(metaFiles), unfoundBy[..g], dryRun).1
        invariant unfoundFiles == old(unfoundFiles) && syncedFiles == old(syncedFiles) && files == old(files)
      {
        assert unfoundBy[..g + 1][..g] == unfoundBy[..g];
        var metaPath := Under(unfoundBy[g].0, "_meta.json");
        if metaPath in metaFiles {
          FixMetaFile(metaPath, unfoundBy[g].1);
        }
      }
      assert unfoundBy[..|unfoundBy|] == unfoundBy;
    }

    /**
     * `run`: the missing pages are listed; with none it succeeds at once.
     * Otherwise each is synced in turn, the unfound ones are grouped by
     * chapter, their entries are removed when `fix_meta` is set, and the run
     * succeeds iff no page was ever left unfound.
     */
    method Run(metas: seq<(string, seq<(string, Value)>)>) returns (ok: bool)
      modifies this
      ensures var missing := Missing(Tree(old(files), dirs), metas);
        unfoundFiles == old(unfoundFiles) + Unfound(sources, missing) &&
        syncedFiles == old(syncedFiles) + Synced(sources, missing) &&
        (ok <==> missing == [] || unfoundFiles == [])
      ensures var missing := Missing(Tree(old(files), dirs), metas);
        files == if dryRun then old(files) else SyncWrites(old(files), sources, missing)
      ensures var groups := Grouped(Unfound(sources, Missing(Tree(old(files), dirs), metas)));
        metaFiles == (if fixMeta then FixMetas(old(metaFiles), groups, dryRun).0 else old(metaFiles)) &&
        fixedMetas == old(fixedMetas) + (if fixMeta then FixMetas(old(metaFiles), groups, dryRun).1 else [])
    {
      var missing := CheckMissingFiles(Tree(files, dirs), metas);
      if missing == [] {
        return true;
      }
      var unfoundBy := SyncAll(missing);
      if fixMeta && unfoundBy != [] {
        FixAll(unfoundBy);
      }
      ok := |unfoundFiles| == 0;
    }
  }
}
