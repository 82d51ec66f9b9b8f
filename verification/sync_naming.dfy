/**
 * How the chapter sync names things: chapter directories, the order, slug
 * and title of a page derived from its file name, and URL slugs for titles.
 */
module SyncNaming {
  import opened Options
  import opened Text
  import opened Rewrite
  import opened Markdown

  /** What `$` sees without MULTILINE: the text, less one final newline. */
  function EndAnchored(s: string): (r: string)
    ensures r <= s && |s| - 1 <= |r|
    ensures r != s ==> s[|s| - 1] == '\n'
  {
    if s != [] && s[|s| - 1] == '\n' then s[..|s| - 1] else s
  }

  /** The digits of a name matching `^chapter(\d+)$` with IGNORECASE. */
  function ChapterDigits(name: string): (r: Option<string>)
    ensures r.Some? ==> r.value != [] && AllDigits(r.value)
  {
    var b := EndAnchored(name);
    if |b| > 7 && Lower(b[..7]) == "chapter" && AllDigits(b[7..]) then Some(b[7..]) else None
  }

  /** `normalize_chapter_name`: `chapter1` (in any case) becomes `chapter-01`; other names are kept. */
  function NormalizeChapterName(name: string): (r: string)
    ensures ChapterDigits(name).None? ==> r == name
    ensures ChapterDigits(name).Some? ==>
      var d := ChapterDigits(name).value;
      |r| == 8 + (if |d| < 2 then 2 else |d|) && r[..8] == "chapter-" && r[|r| - |d|..] == d &&
      (forall i :: 8 <= i < |r| - |d| ==> r[i] == '0')
  {
    match ChapterDigits(name)
    case Some(d) => "chapter-" + ZFill(d, 2)
    case None => name
  }

  /** A normalised name is already normal: normalising twice changes nothing. */
  lemma NormalizeIdempotent(name: string)
    ensures NormalizeChapterName(NormalizeChapterName(name)) == NormalizeChapterName(name)
  {
    var r := NormalizeChapterName(name);
    if ChapterDigits(name).Some? {
      assert IsDigit(r[|r| - 1]);
      assert EndAnchored(r) == r;
      assert r[7] == '-' && r[7..][0] == r[7];
      assert !AllDigits(r[7..]);
    }
  }

  /** The parts of a stem matching `^(\d+)\.(\d+)-(.+)$`. */
  datatype Numbered = Numbered(major: string, minor: string, title: string)


  function ParseNumbered(stem: string): (r: Option<Numbered>)
    ensures r.Some? ==> r.value.major != [] && AllDigits(r.value.major) && r.value.minor != [] && AllDigits(r.value.minor)
    ensures r.Some? ==> r.value.title != [] && NoNewline(r.value.title)
    ensures r.Some? ==> EndAnchored(stem) == r.value.major + "." + r.value.minor + "-" + r.value.title
  {
    var b := EndAnchored(stem);
    var e1 := RunEnd(b, 0, IsDigit);
    if 0 < e1 < |b| && b[e1] == '.' then
      var e2 := RunEnd(b, e1 + 1, IsDigit);
      if e1 + 1 < e2 && e2 + 1 < |b| && b[e2] == '-' && NoNewline(b[e2 + 1..]) then
        assert b == b[..e1] + "." + b[e1 + 1..e2] + "-" + b[e2 + 1..];
        Some(Numbered(b[..e1], b[e1 + 1..e2], b[e2 + 1..]))
      else None
    else None
  }

  /** `extract_file_info`'s result: the sort order, the slug and the title of a page. */
  datatype FileInfo = FileInfo(order: int, slug: string, title: string)

  function NumberedOrder(n: Numbered): nat
    requires AllDigits(n.major) && AllDigits(n.minor)
  {
    DigitsValue(n.major) * 100 + DigitsValue(n.minor)
  }

  /**
   * `extract_file_info`: a README is the chapter overview at order 0; a
   * stem `X.Y-title` sorts at `X*100+Y` and is named by its title; any
   * other stem sorts last, at 999, and is named by itself.
   */
  function ExtractFileInfo(filename: string): (r: FileInfo)
    ensures Lower(Stem(filename)) == "readme" ==> r == FileInfo(0, "index", "章节概览")
    ensures Lower(Stem(filename)) != "readme" && ParseNumbered(Stem(filename)).None? ==>
      r.order == 999 && r.title == Stem(filename)
    ensures Lower(Stem(filename)) != "readme" && ParseNumbered(Stem(filename)).Some? ==>
      r.title == ParseNumbered(Stem(filename)).value.title && r.order == NumberedOrder(ParseNumbered(Stem(filename)).value)
    ensures Lower(Stem(filename)) != "readme" ==> r.slug == GenerateSlug(r.title)
  {
    var stem := Stem(filename);
    if Lower(stem) == "readme" then FileInfo(0, "index", "章节概览")
    else match ParseNumbered(stem)
      case Some(n) => FileInfo(NumberedOrder(n), GenerateSlug(n.title), n.title)
      case None => FileInfo(999, GenerateSlug(stem), stem)
  }

  /** While minor numbers stay below 100, the order sorts pages by major number, then minor number. */
  lemma OrderFollowsNumbering(a: Numbered, b: Numbered)
    requires AllDigits(a.major) && AllDigits(a.minor) && AllDigits(b.major) && AllDigits(b.minor)
    requires DigitsValue(a.minor) < 100 && DigitsValue(b.minor) < 100
    ensures NumberedOrder(a) < NumberedOrder(b) <==>
      DigitsValue(a.major) < DigitsValue(b.major) ||
      (DigitsValue(a.major) == DigitsValue(b.major) && DigitsValue(a.minor) < DigitsValue(b.minor))
  {
  }

  /** The page `1.1-什么是智能体.md` sorts at 101 (not at the 11 the function's documentation gives) under its table slug. */
  lemma FirstSectionInfo()
    ensures ExtractFileInfo("1.1-什么是智能体.md") == FileInfo(101, "what-is-agent", "什么是智能体")
  {
    var stem := "1.1-什么是智能体";
    StemOfExtension(stem, "md");
    assert "1.1-什么是智能体.md" == stem + "." + "md";
    assert |Lower(stem)| != |"readme"|;
    FirstSectionNumbering();
    var n := Numbered("1", "1", "什么是智能体");
    assert DigitsValue("1") == 1 by {
      assert "1"[..0] == [];
    }
    assert NumberedOrder(n) == 101;
    FirstSectionSlug();
  }

  lemma FirstSectionNumbering()
    ensures ParseNumbered("1.1-什么是智能体") == Some(Numbered("1", "1", "什么是智能体"))
  {
    var b := "1.1-什么是智能体";
    assert b[|b| - 1] != '\n';
    assert EndAnchored(b) == b;
    assert IsDigit(b[0]) && b[1] == '.' && IsDigit(b[2]) && b[3] == '-';
    assert RunEnd(b, 1, IsDigit) == 1;
    assert RunEnd(b, 0, IsDigit) == 1;
    assert RunEnd(b, 3, IsDigit) == 3;
    assert RunEnd(b, 2, IsDigit) == 3;
    assert b[..1] == "1" && b[2..3] == "1" && b[4..] == "什么是智能体";
    assert NoNewline(b[4..]);
  }

  lemma FirstSectionSlug()
    ensures GenerateSlug("什么是智能体") == "what-is-agent"
  {
  }

  /** The number of entries of the fixed title-to-slug table of `generate_slug`. */
  const SlugTableSize: nat := 51

  /** Entry `i` of the table: a title and its slug. */
  function SlugEntry(i: nat): (string, string)
    requires i < SlugTableSize
  {
    match i
    case 0 => ("什么是智能体", "what-is-agent")
    case 1 => ("智能体如何工作", "how-agent-works")
    case 2 => ("构建第一个智能体", "first-agent")
    case 3 => ("智能体应用生态", "agent-ecosystem")
    case 4 => ("习题与讨论", "exercises")
    case 5 => ("本章小结", "summary")
    case 6 => ("符号主义时代", "symbolic-era")
    case 7 => ("构建规则聊天机器人", "rule-chatbot")
    case 8 => ("心智社会理论", "society-of-mind")
    case 9 => ("学习范式演进", "learning-paradigm")
    case 10 => ("智能体爆发时代", "agent-explosion")
    case 11 => ("语言模型简史", "language-model-history")
    case 12 => ("Prompt工程基础", "prompt-engineering")
    case 13 => ("LLM的能力与边界", "llm-capabilities")
    case 14 => ("从LLM到智能体架构", "llm-to-agent")
    case 15 => ("五分钟体验PromptX", "promptx-quickstart")
    case 16 => ("上下文鸿沟", "context-gap")
    case 17 => ("语义鸿沟", "semantic-gap")
    case 18 => ("Nuwa角色创建", "nuwa-role")
    case 19 => ("Luban工具创建", "luban-tool")
    case 20 => ("Engram记忆网络", "engram-memory")
    case 21 => ("AgentX简介与设计哲学", "agentx-intro")
    case 22 => ("快速开始", "quick-start")
    case 23 => ("核心概念", "core-concepts")
    case 24 => ("运行时系统", "runtime-system")
    case 25 => ("与PromptX集成", "promptx-integration")
    case 26 => ("从单智能体到多智能体", "single-to-multi")
    case 27 => ("4P理论", "4p-theory")
    case 28 => ("AI任务状态机", "ai-state-machine")
    case 29 => ("PATEOAS", "pateoas")
    case 30 => ("AI组织化", "ai-organization")
    case 31 => ("Multigent架构深入", "multigent-deep")
    case 32 => ("Orchestra方法实战", "orchestra-practice")
    case 33 => ("运行时与调度器实现", "runtime-scheduler")
    case 34 => ("综合实战项目", "comprehensive-project")
    case 35 => ("项目一", "project-1")
    case 36 => ("项目二", "project-2")
    case 37 => ("项目三", "project-3")
    case 38 => ("Monogent架构深入", "monogent-deep")
    case 39 => ("Experience与Evolution实战", "experience-evolution")
    case 40 => ("七阶段管道实现", "seven-stage-pipeline")
    case 41 => ("环境准备与基础工具", "environment-setup")
    case 42 => ("ReAct范式", "react-pattern")
    case 43 => ("Plan-and-Solve范式", "plan-and-solve")
    case 44 => ("Reflection范式", "reflection")
    case 45 => ("范式与框架对照", "paradigm-framework-compare")
    case 46 => ("双基质策略设计", "dual-matrix-strategy")
    case 47 => ("与AgentX-PromptX集成", "agentx-promptx-integration")
    case 48 => ("前言", "preface")
    case 49 => ("教材章节重构建议-完整版", "restructure-suggestions-full")
    case _ => ("章节重构建议", "restructure-suggestions")
  }

  /** The slug of the first table entry from `i` on whose title is `title`. */
  function TableSlugFrom(title: string, i: nat): (r: Option<string>)
    requires i <= SlugTableSize
    decreases SlugTableSize - i
  {
    if i == SlugTableSize then None
    else if SlugEntry(i).0 == title then Some(SlugEntry(i).1)
    else TableSlugFrom(title, i + 1)
  }

  /** The fixed title-to-slug table of `generate_slug`. */
  function TableSlug(title: string): (r: Option<string>)
  {
    TableSlugFrom(title, 0)
  }

  /** `[\w一-鿿]`: the characters a generated slug keeps. */
  predicate IsSlugChar(c: char) { IsWordChar(c) || (0x4E00 <= c as int <= 0x9FFF) }

  predicate IsDash(c: char) { c == '-' }

  predicate NotSlugChar(c: char) { !IsSlugChar(c) }

  /** `[^\w一-鿿]+` replaced by `-`. */
  function NonSlugRun(s: string, i: nat): (r: Option<Match>)
  {
    if i < |s| && !IsSlugChar(s[i]) then Some(Match(RunEnd(s, i, NotSlugChar) - i, "-")) else None
  }

  /** `-+` replaced by `-`. */
  function DashRun(s: string, i: nat): (r: Option<Match>)
  {
    if i < |s| && s[i] == '-' then Some(Match(RunEnd(s, i, IsDash) - i, "-")) else None
  }

  predicate NoDoubleDash(s: string)
  {
    forall k :: 0 <= k < |s| - 1 ==> !(s[k] == '-' && s[k + 1] == '-')
  }

  /** A character a generated slug may hold: a lower-case slug character or a dash. */
  predicate SlugOutputChar(c: char) { (IsSlugChar(c) && !IsUpper(c)) || c == '-' }

  /** The shape every generated slug has. */
  predicate SlugShaped(s: string)
  {
    s != [] && s[0] != '-' && s[|s| - 1] != '-' && NoDoubleDash(s) &&
    forall k :: 0 <= k < |s| ==> SlugOutputChar(s[k])
  }

  /** The automatic slug: lower-case, runs of other characters to one dash, dashes collapsed and stripped, `page` when nothing is left. */
  function AutoSlug(title: string): (r: string)
    ensures SlugShaped(r)
  {
    var stripped := Trim(Sub(Sub(Lower(title), NonSlugRun), DashRun), IsDash);
    AutoSlugShape(title);
    if stripped == [] then PageShaped(); "page" else stripped
  }

  lemma PageShaped()
    ensures SlugShaped("page")
  {
    assert SlugOutputChar('p') && SlugOutputChar('a') && SlugOutputChar('g') && SlugOutputChar('e');
  }

  /** `generate_slug`: the table's slug for a listed title, the automatic slug otherwise. */
  function GenerateSlug(title: string): (r: string)
    ensures TableSlug(title).Some? ==> r == TableSlug(title).value
    ensures TableSlug(title).None? ==> SlugShaped(r)
  {
    match TableSlug(title)
    case Some(s) => s
    case None => AutoSlug(title)
  }

  lemma AutoSlugShape(title: string)
    ensures var t := Trim(Sub(Sub(Lower(title), NonSlugRun), DashRun), IsDash);
      NoDoubleDash(t) && (forall k :: 0 <= k < |t| ==> SlugOutputChar(t[k])) && (t == [] || (t[0] != '-' && t[|t| - 1] != '-'))
  {
    var dashed := Sub(Lower(title), NonSlugRun);
    DashedChars(Lower(title));
    SubKeeps(dashed, 0, DashRun, SlugOutputChar);
    CollapseNoDoubleDash(dashed, 0);
    TrimKeepsShape(Sub(dashed, DashRun));
  }

  /** After runs of other characters become dashes, only lower-case slug characters and dashes are left. */
  lemma DashedChars(lowered: string)
    requires forall k :: 0 <= k < |lowered| ==> !IsUpper(lowered[k])
    ensures forall k :: 0 <= k < |Sub(lowered, NonSlugRun)| ==> SlugOutputChar(Sub(lowered, NonSlugRun)[k])
  {
    forall j | 0 <= j < |lowered| && !Fires(lowered, j, NonSlugRun) ensures SlugOutputChar(lowered[j]) {
      assert IsSlugChar(lowered[j]);
    }
    SubKeeps(lowered, 0, NonSlugRun, SlugOutputChar);
  }

  /** Stripping dashes keeps the characters and the single dashes, and leaves none at either end. */
  lemma TrimKeepsShape(s: string)
    requires NoDoubleDash(s) && forall k :: 0 <= k < |s| ==> SlugOutputChar(s[k])
    ensures var t := Trim(s, IsDash);
      NoDoubleDash(t) && (forall k :: 0 <= k < |t| ==> SlugOutputChar(t[k])) && (t == [] || (t[0] != '-' && t[|t| - 1] != '-'))
  {
    var t := Trim(s, IsDash);
    var a := TrimSlice(s, IsDash);
    forall k | 0 <= k < |t| ensures t[k] == s[a + k] && SlugOutputChar(t[k]) {
      assert t[k] == s[a + k];
    }
    forall k | 0 <= k < |t| - 1 ensures !(t[k] == '-' && t[k + 1] == '-') {
      assert t[k] == s[a + k] && t[k + 1] == s[a + k + 1];
    }
  }

  lemma {:induction false} CollapseNoDoubleDash(s: string, i: nat)
    requires i <= |s|
    ensures NoDoubleDash(SubFrom(s, i, DashRun))
    ensures i < |s| && s[i] != '-' ==> SubFrom(s, i, DashRun) != [] && SubFrom(s, i, DashRun)[0] == s[i]
    decreases |s| - i
  {
    if i < |s| {
      if s[i] == '-' {
        var e := RunEnd(s, i, IsDash);
        CollapseNoDoubleDash(s, e);
        CollapseDashStep(s, i, e);
      } else {
        CollapseNoDoubleDash(s, i + 1);
        CollapseOtherStep(s, i);
      }
    }
  }

  /** A run of dashes becomes one dash, followed by output that starts with a character other than a dash. */
  lemma CollapseDashStep(s: string, i: nat, e: nat)
    requires i < |s| && s[i] == '-' && e == RunEnd(s, i, IsDash)
    requires NoDoubleDash(SubFrom(s, e, DashRun))
    requires e < |s| ==> SubFrom(s, e, DashRun) != [] && SubFrom(s, e, DashRun)[0] == s[e]
    ensures NoDoubleDash(SubFrom(s, i, DashRun))
  {
    var rest := SubFrom(s, e, DashRun);
    assert Fires(s, i, DashRun);
    assert SubFrom(s, i, DashRun) == "-" + rest;
    NoDoubleDashCons('-', rest);
  }

  /** A character other than a dash is copied in front of the rest of the output. */
  lemma CollapseOtherStep(s: string, i: nat)
    requires i < |s| && s[i] != '-'
    requires NoDoubleDash(SubFrom(s, i + 1, DashRun))
    requires i + 1 < |s| && s[i + 1] != '-' ==> SubFrom(s, i + 1, DashRun) != [] && SubFrom(s, i + 1, DashRun)[0] == s[i + 1]
    ensures NoDoubleDash(SubFrom(s, i, DashRun))
    ensures SubFrom(s, i, DashRun) != [] && SubFrom(s, i, DashRun)[0] == s[i]
  {
    var rest := SubFrom(s, i + 1, DashRun);
    assert !Fires(s, i, DashRun);
    assert SubFrom(s, i, DashRun) == [s[i]] + rest;
    NoDoubleDashCons(s[i], rest);
  }

  lemma NoDoubleDashCons(c: char, rest: string)
    requires NoDoubleDash(rest) && (c != '-' || rest == [] || rest[0] != '-')
    ensures NoDoubleDash([c] + rest)
  {
    var t := [c] + rest;
    forall k | 0 <= k < |t| - 1 ensures !(t[k] == '-' && t[k + 1] == '-') {
      if k > 0 { assert t[k] == rest[k - 1] && t[k + 1] == rest[k]; }
    }
  }
}
