/**
 * The tag rewriting of `scripts/migrate-content.py`: VitePress component
 * tags (`Callout`, `Steps`, `CodeRun`, `Demo`) rewritten as the Nextra
 * site's JSX components, image references and `<img>` tags normalised, and
 * HTML made acceptable to JSX (`<br>`/`<hr>` closed, `class=` renamed).
 * Each `re.sub` is a matcher run by `Rewrite.Sub`.
 */
module JsxTags {
  import opened Options
  import opened Text
  import opened Rewrite
  import opened Markdown

  predicate IsQuoteChar(c: char) { c == '"' || c == '\'' }
  predicate NotQuote(c: char) { !IsQuoteChar(c) }
  predicate NotGt(c: char) { c != '>' }
  predicate NotCloseBracket(c: char) { c != ']' }
  predicate NotCloseParen(c: char) { c != ')' }

  /** `<name\s+` at `i`: the position after the whitespace, which must not be empty. */
  function TagOpen(s: string, i: nat, name: string): (r: Option<nat>)
    ensures r.Some? ==> i < |s| && s[i] == '<' && i + 1 + |name| < r.value <= |s|
  {
    if i < |s| && s[i] == '<' && i + 1 + |name| <= |s| && LitAt(s, i + 1, name) then
      var w := WsEnd(s, i + 1 + |name|);
      if w > i + 1 + |name| then Some(w) else None
    else None
  }

  /**
   * `attr["'](inner+)["']` at `i`, where `attr` ends with `=`: the value
   * between the quotes and the position after the closing quote. The
   * character class `inner` never holds a quote, so the greedy run is the
   * only way to match.
   */
  function QuotedAttr(s: string, i: nat, attr: string, inner: char -> bool): (r: Option<(string, nat)>)
    requires i <= |s|
    ensures r.Some? ==> i + |attr| + 1 < r.value.1 <= |s| && r.value.0 == s[i + |attr| + 1..r.value.1 - 1]
    ensures r.Some? ==> IsQuoteChar(s[r.value.1 - 1])
    ensures r.Some? ==> r.value.0 != [] && forall k :: 0 <= k < |r.value.0| ==> inner(r.value.0[k])
  {
    if i + |attr| < |s| && LitAt(s, i, attr) && IsQuoteChar(s[i + |attr|]) then
      var e := RunEnd(s, i + |attr| + 1, inner);
      if e > i + |attr| + 1 && e < |s| && IsQuoteChar(s[e]) then Some((s[i + |attr| + 1..e], e + 1)) else None
    else None
  }

  /** `\s*` then the literal `close` at `i`: the position after `close`. */
  function CloseWith(s: string, i: nat, close: string): (r: Option<nat>)
    requires i <= |s| && close != []
    ensures r.Some? ==> i < r.value <= |s|
  {
    var w := WsEnd(s, i);
    if w + |close| <= |s| && LitAt(s, w, close) then Some(w + |close|) else None
  }

  /** `<Callout\s+type=["'](\w+)["']\s*>` replaced by `<Alert type="\1">`. */
  function CalloutAt(s: string, i: nat): (r: Option<Match>)
  {
    match TagOpen(s, i, "Callout")
    case None => None
    case Some(a) =>
      match QuotedAttr(s, a, "type=", IsWordChar)
      case None => None
      case Some((kind, b)) =>
        match CloseWith(s, b, ">")
        case None => None
        case Some(e) => Some(Match(e - i, "<Alert type=\"" + kind + "\">"))
  }

  /** `<Callout\s+type=["'](\w+)["']\s+title=["']([^"']+)["']\s*>` replaced by `<Alert type="\1" title="\2">`. */
  function CalloutTitledAt(s: string, i: nat): (r: Option<Match>)
  {
    match TagOpen(s, i, "Callout")
    case None => None
    case Some(a) =>
      match QuotedAttr(s, a, "type=", IsWordChar)
      case None => None
      case Some((kind, b)) =>
        var w := WsEnd(s, b);
        if w == b then None
        else
          match QuotedAttr(s, w, "title=", NotQuote)
          case None => None
          case Some((title, c)) =>
            match CloseWith(s, c, ">")
            case None => None
            case Some(e) => Some(Match(e - i, "<Alert type=\"" + kind + "\" title=\"" + title + "\">"))
  }

  /** `<CodeRun\s+lang=["'](\w+)["']\s*>` replaced by the opening of a `CodePlayground` whose code is a template literal. */
  function CodeRunAt(s: string, i: nat): (r: Option<Match>)
  {
    match TagOpen(s, i, "CodeRun")
    case None => None
    case Some(a) =>
      match QuotedAttr(s, a, "lang=", IsWordChar)
      case None => None
      case Some((lang, b)) =>
        match CloseWith(s, b, ">")
        case None => None
        case Some(e) => Some(Match(e - i, "<CodePlayground language=\"" + lang + "\" code={`"))
  }

  /** `<Demo\s+src=["']([^"']+)["']\s*` and a closing `/>`, replaced by the Markdown image `![](\1)`. */
  function DemoAt(s: string, i: nat): (r: Option<Match>)
  {
    match TagOpen(s, i, "Demo")
    case None => None
    case Some(a) =>
      match QuotedAttr(s, a, "src=", NotQuote)
      case None => None
      case Some((src, b)) =>
        match CloseWith(s, b, "/>")
        case None => None
        case Some(e) => Some(Match(e - i, "![](" + src + ")"))
  }

  /**
   * `!\[([^\]]*)\]\(/images/([^)]+)\)` at `i`: where the alternative text
   * ends (at the `]`) and where the path ends (at the `)`).
   */
  function ImageLinkParts(s: string, i: nat): (r: Option<(nat, nat)>)
    ensures r.Some? ==> i + 2 <= r.value.0 && r.value.0 + 10 < r.value.1 < |s|
    ensures r.Some? ==> s[i] == '!' && s[i..i + 2] == "!["
    ensures r.Some? ==> s[r.value.0..r.value.0 + 10] == "](/images/"
    ensures r.Some? ==> s[r.value.1..r.value.1 + 1] == ")"
  {
    if i + 2 <= |s| && s[i] == '!' && s[i + 1] == '[' then
      var a := RunEnd(s, i + 2, NotCloseBracket);
      if a + 10 <= |s| && s[a..a + 10] == "](/images/" then
        var e := RunEnd(s, a + 10, NotCloseParen);
        if e > a + 10 && e < |s| then Some((a, e)) else None
      else None
    else None
  }

  /** `!\[([^\]]*)\]\(/images/([^)]+)\)` replaced by `![\1](/images/\2)`. */
  function ImageLinkAt(s: string, i: nat): (r: Option<Match>)
  {
    match ImageLinkParts(s, i)
    case None => None
    case Some((a, e)) => Some(Match(e + 1 - i, "![" + s[i + 2..a] + "](/images/" + s[a + 10..e] + ")"))
  }

  /**
   * The parts of an `<img>` tag: its `src`, the attribute text that follows
   * from position `from` (just after the closing quote) up to the `>`, and
   * the position after the `>`.
   */
  datatype ImgTag = ImgTag(src: string, from: nat, attrs: string, end: nat)

  /** `<img\s+src=["']([^"']+)["']([^>]*)>` at `i`. */
  function ImgTagAt(s: string, i: nat): (r: Option<ImgTag>)
    ensures r.Some? ==> i < r.value.from < r.value.end <= |s| && IsQuoteChar(s[r.value.from - 1]) && s[r.value.end - 1] == '>'
    ensures r.Some? ==> r.value.attrs == s[r.value.from..r.value.end - 1]
    ensures r.Some? ==> r.value.src != [] && forall k :: 0 <= k < |r.value.src| ==> NotQuote(r.value.src[k])
  {
    var a := TagOpen(s, i, "img");
    if a.None? then None
    else
      var q := QuotedAttr(s, a.value, "src=", NotQuote);
      if q.None? then None
      else
        var e := RunEnd(s, q.value.1, NotGt);
        if e < |s| then Some(ImgTag(q.value.0, q.value.1, s[q.value.1..e], e + 1)) else None
  }

  /** `<img\s+src=["']([^"']+)["']([^>]*)>` replaced by `<img src="\1"\2 />`. */
  function ImgAt(s: string, i: nat): (r: Option<Match>)
  {
    match ImgTagAt(s, i)
    case None => None
    case Some(t) => Some(Match(t.end - i, "<img src=\"" + t.src + "\"" + t.attrs + " />"))
  }

  /** `\bclass=(["'])` replaced by `className=\1`: `class` must not continue a word. */
  function ClassAt(s: string, i: nat): (r: Option<Match>)
  {
    if i + 7 <= |s| && LitAt(s, i, "class=") && IsQuoteChar(s[i + 6]) && (i == 0 || !IsWordChar(s[i - 1])) then
      Some(Match(7, "className=" + [s[i + 6]]))
    else None
  }

  /** A pattern without metacharacters (`re.sub` on it, or `str.replace`). */
  function LiteralAt(s: string, i: nat, pat: string, rep: string): (r: Option<Match>)
    ensures r.Some? ==> pat != [] && i < |s| && s[i] == pat[0] && r.value.len == |pat|
  {
    if pat != [] && i < |s| && LitAt(s, i, pat) then Some(Match(|pat|, rep)) else None
  }

  function CalloutCloseAt(s: string, i: nat): Option<Match> { LiteralAt(s, i, "</Callout>", "</Alert>") }
  function StepsAt(s: string, i: nat): Option<Match> { LiteralAt(s, i, "<Steps>", "<Steps>") }
  function CodeRunCloseAt(s: string, i: nat): Option<Match> { LiteralAt(s, i, "</CodeRun>", "`} />") }
  function BrAt(s: string, i: nat): Option<Match> { LiteralAt(s, i, "<br>", "<br />") }
  function HrAt(s: string, i: nat): Option<Match> { LiteralAt(s, i, "<hr>", "<hr />") }

  /**
   * Whenever the `<img>` tag is already self-closing (it ends with `/>`),
   * the replacement ends in `/ />`: the slash is doubled, which JSX does
   * not accept.
   */
  lemma ImgSlashDoubled(s: string, i: nat, t: ImgTag)
    requires ImgTagAt(s, i) == Some(t) && s[t.end - 2] == '/'
    ensures ImgAt(s, i).Some? && |ImgAt(s, i).value.replacement| >= 4
    ensures ImgAt(s, i).value.replacement[|ImgAt(s, i).value.replacement| - 4..] == "/ />"
  {
    assert t.attrs[|t.attrs| - 1] == s[t.end - 2];
    SlashBeforeClose("<img src=\"" + t.src + "\"", t.attrs);
  }

  /** Attributes ending in a slash, followed by ` />`, end in `/ />`. */
  lemma SlashBeforeClose(head: string, attrs: string)
    requires attrs != [] && attrs[|attrs| - 1] == '/'
    ensures var r := head + attrs + " />"; |r| >= 4 && r[|r| - 4..] == "/ />"
  {
    var r := head + attrs + " />";
    assert r[|r| - 4] == attrs[|attrs| - 1];
  }

  /**
   * `<img>` normalisation as intended: the tag is written with a double
   * quoted `src` and closed with ` />`, a slash it already had (with the
   * spaces before it) being dropped first.
   */
  function ImgAtChecked(s: string, i: nat): (r: Option<Match>)
    ensures r.Some? ==> |r.value.replacement| >= 4 && r.value.replacement[|r.value.replacement| - 3..] == " />"
    ensures r.Some? ==> r.value.replacement[|r.value.replacement| - 4] != '/'
  {
    match ImgTagAt(s, i)
    case None => None
    case Some(t) => Some(Match(t.end - i, "<img src=\"" + t.src + "\"" + Unclosed(t.attrs) + " />"))
  }

  predicate IsSlashOrSpace(c: char) { c == '/' || IsSpace(c) }

  /** The attributes of a tag with a closing slash and the spaces before it removed. */
  function Unclosed(attrs: string): (r: string)
    ensures r == [] || r[|r| - 1] != '/'
    ensures attrs == [] || attrs[|attrs| - 1] != '/' ==> r == attrs
  {
    if attrs != [] && attrs[|attrs| - 1] == '/' then TrimRight(attrs, IsSlashOrSpace) else attrs
  }

  /** On tags that are not already self-closing the intended normalisation is the one written. */
  lemma ImgAtCheckedAgrees(s: string, i: nat)
    requires ImgTagAt(s, i).Some? && s[ImgTagAt(s, i).value.end - 2] != '/'
    ensures ImgAtChecked(s, i) == ImgAt(s, i)
  {
    var t := ImgTagAt(s, i).value;
    if t.attrs != [] {
      assert t.attrs[|t.attrs| - 1] == s[t.end - 2];
    }
    assert Unclosed(t.attrs) == t.attrs;
  }

  // ---------------------------------------------------------------------
  // The stages
  // ---------------------------------------------------------------------

  /** `convert_vue_to_jsx`: its seven substitutions, in order. */
  function ConvertVueToJsx(content: string): string
  {
    var callouts := Sub(content, CalloutAt);
    var closed := Sub(callouts, CalloutCloseAt);
    var titled := Sub(closed, CalloutTitledAt);
    var steps := Sub(titled, StepsAt);
    var runs := Sub(steps, CodeRunAt);
    var runsClosed := Sub(runs, CodeRunCloseAt);
    Sub(runsClosed, DemoAt)
  }

  /**
   * `convert_image_paths`, with `img` the `<img>` normalisation: `ImgAt` as
   * written, `ImgAtChecked` as intended.
   */
  function ConvertImagePaths(content: string, img: (string, nat) -> Option<Match>): string
  {
    Sub(Sub(content, ImageLinkAt), img)
  }

  /** `convert_html_tags`. */
  function ConvertHtmlTags(content: string): string
  {
    Sub(Sub(Sub(content, BrAt), HrAt), ClassAt)
  }

  /** `convert_mermaid` returns the text as it is. */
  function ConvertMermaid(content: string): string { content }

  /** Steps 2 to 5 of `convert_content`. */
  function ConvertTags(content: string, img: (string, nat) -> Option<Match>): string
  {
    ConvertMermaid(ConvertHtmlTags(ConvertImagePaths(ConvertVueToJsx(content), img)))
  }

  predicate IsLt(c: char) { c == '<' }

  /** The characters a substitution of the migration can start at. */
  predicate TagLead(c: char) { IsLt(c) || c == '!' || c == 'c' }

  /** Every substitution but two starts at a `<`. */
  lemma LtLead()
    ensures LeadsWith(CalloutAt, IsLt) && LeadsWith(CalloutCloseAt, IsLt) && LeadsWith(CalloutTitledAt, IsLt)
    ensures LeadsWith(StepsAt, IsLt) && LeadsWith(CodeRunAt, IsLt) && LeadsWith(CodeRunCloseAt, IsLt)
    ensures LeadsWith(DemoAt, IsLt) && LeadsWith(BrAt, IsLt) && LeadsWith(HrAt, IsLt)
  {
  }

  /** Both `<img>` normalisations start at a `<`. */
  lemma ImgLead()
    ensures LeadsWith(ImgAt, IsLt) && LeadsWith(ImgAtChecked, IsLt)
  {
  }

  lemma OthersLead()
    ensures LeadsWith(ImageLinkAt, TagLead) && LeadsWith(ClassAt, TagLead)
  {
    forall s: string, j: nat | Fires(s, j, ClassAt)
      ensures TagLead(s[j])
    {
      assert LitAt(s, j, "class=");
    }
  }

  /** A text whose first `k` characters hold no `<`, `!` or `c`. */
  ghost predicate LeadFree(s: string, k: nat)
  {
    k <= |s| && forall j :: 0 <= j < k ==> !TagLead(s[j])
  }

  /** One stage of the migration keeps a lead-free prefix. */
  lemma StageKeepsPrefix(s: string, m: (string, nat) -> Option<Match>, k: nat)
    requires LeadFree(s, k) && LeadsWith(m, TagLead)
    ensures LeadFree(Sub(s, m), k) && Sub(s, m)[..k] == s[..k]
  {
    SubKeepsPrefix(s, m, TagLead, k);
  }

  lemma LtStageKeepsPrefix(s: string, m: (string, nat) -> Option<Match>, k: nat)
    requires LeadFree(s, k) && LeadsWith(m, IsLt)
    ensures LeadFree(Sub(s, m), k) && Sub(s, m)[..k] == s[..k]
  {
    LeadsWeaken(m, IsLt, TagLead);
    StageKeepsPrefix(s, m, k);
  }

  lemma VueKeepsPrefix(s: string, k: nat)
    requires LeadFree(s, k)
    ensures LeadFree(ConvertVueToJsx(s), k) && ConvertVueToJsx(s)[..k] == s[..k]
  {
    LtLead();
    var a := Sub(s, CalloutAt);
    LtStageKeepsPrefix(s, CalloutAt, k);
    var b := Sub(a, CalloutCloseAt);
    LtStageKeepsPrefix(a, CalloutCloseAt, k);
    var c := Sub(b, CalloutTitledAt);
    LtStageKeepsPrefix(b, CalloutTitledAt, k);
    var d := Sub(c, StepsAt);
    LtStageKeepsPrefix(c, StepsAt, k);
    var e := Sub(d, CodeRunAt);
    LtStageKeepsPrefix(d, CodeRunAt, k);
    var f := Sub(e, CodeRunCloseAt);
    LtStageKeepsPrefix(e, CodeRunCloseAt, k);
    LtStageKeepsPrefix(f, DemoAt, k);
  }

  /** Text before the first `<`, `!` or `c` is left as it is by every tag rewrite. */
  lemma ConvertTagsKeepsPrefix(s: string, img: (string, nat) -> Option<Match>, k: nat)
    requires LeadFree(s, k) && LeadsWith(img, IsLt)
    ensures k <= |ConvertTags(s, img)| && ConvertTags(s, img)[..k] == s[..k]
  {
    LtLead();
    OthersLead();
    VueKeepsPrefix(s, k);
    var a := ConvertVueToJsx(s);
    StageKeepsPrefix(a, ImageLinkAt, k);
    var b := Sub(a, ImageLinkAt);
    LtStageKeepsPrefix(b, img, k);
    var c := Sub(b, img);
    LtStageKeepsPrefix(c, BrAt, k);
    var d := Sub(c, BrAt);
    LtStageKeepsPrefix(d, HrAt, k);
    var e := Sub(d, HrAt);
    StageKeepsPrefix(e, ClassAt, k);
  }

  /** `re.sub(r"<Steps>", r"<Steps>", ...)` changes nothing. */
  lemma StepsInert(s: string)
    ensures Inert(s, StepsAt)
  {
    forall j | 0 <= j < |s| && Fires(s, j, StepsAt)
      ensures StepsAt(s, j).value.replacement == s[j..j + 7]
    {
      LitAtOccurs(s, j, "<Steps>");
    }
  }

  /** Text matched as `open`, a group, `mid`, a group and `close` is put back together by the same five pieces. */
  lemma Reassemble(s: string, i: nat, a: nat, e: nat, open: string, mid: string, close: string)
    requires i + |open| <= a && a + |mid| <= e && e + |close| <= |s|
    requires s[i..i + |open|] == open && s[a..a + |mid|] == mid && s[e..e + |close|] == close
    ensures open + s[i + |open|..a] + mid + s[a + |mid|..e] + close == s[i..e + |close|]
  {
    SliceSplit(s, i, e, e + |close|);
    SliceSplit(s, i, a + |mid|, e);
    SliceSplit(s, i, a, a + |mid|);
    SliceSplit(s, i, i + |open|, a);
  }

  /** The local image link rewrite puts back exactly the text it matched. */
  lemma ImageLinksInert(s: string)
    ensures Inert(s, ImageLinkAt)
  {
    forall j | 0 <= j < |s| && Fires(s, j, ImageLinkAt)
      ensures ImageLinkAt(s, j).value.replacement == s[j..j + ImageLinkAt(s, j).value.len]
    {
      ImageLinkSelf(s, j);
    }
  }

  /** A matched image link is rebuilt from its own parts. */
  lemma ImageLinkSelf(s: string, j: nat)
    requires Fires(s, j, ImageLinkAt)
    ensures ImageLinkAt(s, j).value.replacement == s[j..j + ImageLinkAt(s, j).value.len]
  {
    var (a, e) := ImageLinkParts(s, j).value;
    Reassemble(s, j, a, e, "![", "](/images/", ")");
  }

  /** A stage that only fires at `<` leaves text without `<` alone. */
  lemma LtStagePlain(s: string, m: (string, nat) -> Option<Match>)
    requires '<' !in s && LeadsWith(m, IsLt)
    ensures Sub(s, m) == s
  {
    LeadsInert(s, m, IsLt);
    InertSub(s, m);
  }

  lemma VuePlain(s: string)
    requires '<' !in s
    ensures ConvertVueToJsx(s) == s
  {
    LtLead();
    LtStagePlain(s, CalloutAt);
    LtStagePlain(s, CalloutCloseAt);
    LtStagePlain(s, CalloutTitledAt);
    StepsInert(s);
    InertSub(s, StepsAt);
    LtStagePlain(s, CodeRunAt);
    LtStagePlain(s, CodeRunCloseAt);
    LtStagePlain(s, DemoAt);
  }

  lemma ClassPlain(s: string)
    requires !IsSubstring("class=", s)
    ensures Sub(s, ClassAt) == s
  {
    forall j | 0 <= j < |s| && Fires(s, j, ClassAt)
      ensures false
    {
      LitAtOccurs(s, j, "class=");
      SubstringAt("class=", s, j);
    }
    InertSub(s, ClassAt);
  }

  /** Text with no `<` and no `class=` comes through the tag rewrites unchanged. */
  lemma ConvertTagsPlain(s: string, img: (string, nat) -> Option<Match>)
    requires '<' !in s && !IsSubstring("class=", s) && LeadsWith(img, IsLt)
    ensures ConvertTags(s, img) == s
  {
    LtLead();
    VuePlain(s);
    ImageLinksInert(s);
    InertSub(s, ImageLinkAt);
    LtStagePlain(s, img);
    LtStagePlain(s, BrAt);
    LtStagePlain(s, HrAt);
    ClassPlain(s);
  }

}
