/**
 * The MDX clean-up of the chapter sync (`sanitize_for_mdx`) and the page
 * conversion that puts a frontmatter block in front of its result
 * (`convert_md_to_mdx`).
 *
 * The clean-up runs in stages: fenced and inline code are swapped for
 * numbered placeholders, `<br>`/`<hr>` are closed, every other tag has its
 * attributes rebuilt, the placeholders are put back, HTML comments are
 * dropped, and a `<br>` inside a table cell is closed.
 */
module MdxSanitizer {
  import opened Options
  import opened Text
  import opened Rewrite
  import opened Markdown

  // ---------------------------------------------------------------------
  // Code protection
  // ---------------------------------------------------------------------

  /** The text a saved code span is replaced by. */
  function Placeholder(n: nat): (r: string)
    ensures "__CODE_BLOCK_" <= r && r[|r| - 2..] == "__"
  {
    "__CODE_BLOCK_" + NatToString(n) + "__"
  }

  /** `` ```[\s\S]*?``` ``: a fence, up to the nearest closing fence. */
  function FenceAt(s: string, i: nat): (r: Option<nat>)
    ensures r.Some? ==> 6 <= r.value <= |s| - i
  {
    if i + 3 <= |s| && s[i..i + 3] == "```" then
      match IndexOfFrom(s, "```", i + 3)
      case Some(j) => Some(j + 3 - i)
      case None => None
    else None
  }

  predicate NotBacktick(c: char) { c != '`' }

  /** `` `[^`]+` ``: an inline code span. */
  function InlineCodeAt(s: string, i: nat): (r: Option<nat>)
    ensures r.Some? ==> 3 <= r.value <= |s| - i
  {
    if i < |s| && s[i] == '`' then
      var e := RunEnd(s, i + 1, NotBacktick);
      if i + 1 < e < |s| then Some(e + 1 - i) else None
    else None
  }

  /** The pattern `at` matches at `i`, and the match is saved. */
  predicate Saves(s: string, i: nat, at: (string, nat) -> Option<nat>)
  {
    i < |s| && at(s, i).Some? && 0 < at(s, i).value <= |s| - i
  }

  /**
   * `re.sub(pattern, save_code_block, s)` with `save_code_block` appending
   * the matched text to `blocks` and returning the placeholder of its index.
   */
  function Protect(s: string, i: nat, at: (string, nat) -> Option<nat>, blocks: seq<string>): (r: (string, seq<string>))
    requires i <= |s|
    ensures blocks <= r.1
    decreases |s| - i
  {
    if i == |s| then ([], blocks)
    else if Saves(s, i, at) then
      var len := at(s, i).value;
      var rest := Protect(s, i + len, at, blocks + [s[i..i + len]]);
      (Placeholder(|blocks|) + rest.0, rest.1)
    else
      var rest := Protect(s, i + 1, at, blocks);
      ([s[i]] + rest.0, rest.1)
  }

  /** Where the pattern matches nowhere, the text is kept and nothing is saved. */
  lemma {:induction false} ProtectNone(s: string, i: nat, at: (string, nat) -> Option<nat>, blocks: seq<string>)
    requires i <= |s|
    requires forall j :: i <= j < |s| ==> !Saves(s, j, at)
    ensures Protect(s, i, at, blocks) == (s[i..], blocks)
    decreases |s| - i
  {
    if i < |s| {
      ProtectNone(s, i + 1, at, blocks);
      assert s[i..] == [s[i]] + s[i + 1..];
    }
  }

  /** Each placeholder, in order, replaced by the block it stands for (`content.replace`). */
  function Restore(s: string, blocks: seq<string>, i: nat): string
    requires i <= |blocks|
    decreases |blocks| - i
  {
    if i == |blocks| then s else Restore(ReplaceAll(s, Placeholder(i), blocks[i]), blocks, i + 1)
  }

  // ---------------------------------------------------------------------
  // Attribute repair (`fix_attributes`)
  // ---------------------------------------------------------------------

  /** A piece of rebuilt tag text: a copied character, or an attribute with its repaired value. */
  datatype Piece = Raw(c: char) | Attr(name: string, value: string)

  function Render(p: Piece): string
  {
    match p
    case Raw(c) => [c]
    case Attr(n, v) => n + "=\"" + v + "\""
  }

  function RenderAll(ps: seq<Piece>): string
  {
    if ps == [] then [] else Render(ps[0]) + RenderAll(ps[1..])
  }

  /** `re.match(r'(\w+)="', t[i:])`: the end of the attribute name, if an attribute starts at `i`. */
  function AttrNameEnd(t: string, i: nat): (r: Option<nat>)
    requires i <= |t|
    ensures r.Some? ==> i < r.value && r.value + 1 < |t| && t[r.value] == '=' && t[r.value + 1] == '"'
  {
    var e := RunEnd(t, i, IsWordChar);
    if i < e && e + 1 < |t| && t[e] == '=' && t[e + 1] == '"' then Some(e) else None
  }

  /** A `"` at `j` ends the value when the next character is a space, `/`, `>`, tab or newline, or there is none. */
  predicate ClosesValue(t: string, j: nat)
  {
    j + 1 >= |t| || t[j + 1] == ' ' || t[j + 1] == '/' || t[j + 1] == '>' || t[j + 1] == '\t' || t[j + 1] == '\n'
  }

  /**
   * The value of an attribute from `i` on: the characters up to the closing
   * quote, with every other `"` dropped; and where it stopped (the closing
   * quote, or the end).
   */
  function ValueFrom(t: string, i: nat): (r: (string, nat))
    requires i <= |t|
    ensures i <= r.1 <= |t|
    ensures r.1 < |t| ==> t[r.1] == '"' && ClosesValue(t, r.1)
    ensures '"' !in r.0
    decreases |t| - i
  {
    if i == |t| then ([], |t|)
    else if t[i] == '"' && ClosesValue(t, i) then ([], i)
    else if t[i] == '"' then ValueFrom(t, i + 1)
    else
      var rest := ValueFrom(t, i + 1);
      ([t[i]] + rest.0, rest.1)
  }

  /** A rebuilt attribute: a non-empty name of word characters and a value without `"`. */
  predicate WellFormedAttr(p: Piece)
    requires p.Attr?
  {
    p.name != [] && (forall c :: c in p.name ==> IsWordChar(c)) && '"' !in p.value
  }

  /** The piece `fix_attributes` produces at `i`: an attribute starting there, or the character. */
  function PieceAt(t: string, i: nat): Piece
    requires i < |t|
  {
    match AttrNameEnd(t, i)
    case Some(e) => Attr(t[i..e], ValueFrom(t, e + 2).0)
    case None => Raw(t[i])
  }

  /** Where `fix_attributes` goes on after the piece at `i`: past the closing quote, or to the next character. */
  function NextAt(t: string, i: nat): (r: nat)
    requires i < |t|
    ensures i < r <= |t| + 1
  {
    match AttrNameEnd(t, i)
    case Some(e) => ValueFrom(t, e + 2).1 + 1
    case None => i + 1
  }

  /** The pieces `fix_attributes` produces from position `i` of a tag's inside. */
  function AttrPieces(t: string, i: nat): (r: seq<Piece>)
    requires i <= |t| + 1
    decreases |t| + 1 - i
  {
    if i >= |t| then [] else [PieceAt(t, i)] + AttrPieces(t, NextAt(t, i))
  }

  /** Every attribute `fix_attributes` rebuilds has a non-empty word-character name and a value without `"`. */
  lemma {:induction false} AttrPiecesWellFormed(t: string, i: nat)
    requires i <= |t| + 1
    ensures forall k :: 0 <= k < |AttrPieces(t, i)| && AttrPieces(t, i)[k].Attr? ==> WellFormedAttr(AttrPieces(t, i)[k])
    decreases |t| + 1 - i
  {
    if i < |t| {
      AttrPiecesWellFormed(t, NextAt(t, i));
      if AttrNameEnd(t, i).Some? {
        var e := AttrNameEnd(t, i).value;
        assert forall c :: c in t[i..e] ==> IsWordChar(c);
      }
      var r := AttrPieces(t, i);
      assert r == [PieceAt(t, i)] + AttrPieces(t, NextAt(t, i));
      forall k | 0 <= k < |r| && r[k].Attr? ensures WellFormedAttr(r[k]) {
        if k > 0 {
          assert r[k] == AttrPieces(t, NextAt(t, i))[k - 1];
        }
      }
    }
  }

  lemma RenderCons(p: Piece, ps: seq<Piece>)
    ensures RenderAll([p] + ps) == Render(p) + RenderAll(ps)
  {
    assert ([p] + ps)[1..] == ps;
  }

  lemma ShiftPiece(done: seq<Piece>, p: Piece, rest: seq<Piece>)
    ensures (done + [p]) + rest == done + ([p] + rest)
  {
  }

  lemma {:induction false} RenderAppend(ps: seq<Piece>, p: Piece)
    ensures RenderAll(ps + [p]) == RenderAll(ps) + Render(p)
  {
    if ps != [] {
      assert (ps + [p])[1..] == ps[1..] + [p];
      RenderAppend(ps[1..], p);
    }
  }

  /** `fix_attributes` as a function of the tag's inside. */
  function FixAttributes(t: string): string
  {
    RenderAll(AttrPieces(t, 0))
  }

  /** Text without any `"` holds no attribute to repair and comes back unchanged. */
  lemma {:induction false} FixAttributesNoQuotes(t: string, i: nat)
    requires i <= |t| && '"' !in t
    ensures RenderAll(AttrPieces(t, i)) == t[i..]
    decreases |t| - i
  {
    if i < |t| {
      var e := RunEnd(t, i, IsWordChar);
      assert e + 1 < |t| ==> t[e + 1] != '"';
      FixAttributesNoQuotes(t, i + 1);
      assert t[i..] == [t[i]] + t[i + 1..];
    }
  }

  /**
   * The inner loop of `fix_attributes`: from the first character of a value,
   * collects characters up to the quote that closes it, skipping stray quotes.
   */
  method ScanValue(t: string, start: nat) returns (value: string, i: nat)
    requires start <= |t|
    ensures value == ValueFrom(t, start).0 && i == ValueFrom(t, start).1
  {
    value := "";
    i := start;
    while i < |t|
      invariant start <= i <= |t|
      invariant value + ValueFrom(t, i).0 == ValueFrom(t, start).0
      invariant ValueFrom(t, i).1 == ValueFrom(t, start).1
    {
      var c := t[i];
      if c == '"' {
        if ClosesValue(t, i) {
          break;
        }
        i := i + 1;
      } else {
        value := value + [c];
        i := i + 1;
      }
    }
    assert ValueFrom(t, i) == ([], i);
    assert value + [] == value;
  }

  /** One step of `fix_attributes` at `i`: the piece it writes and where it goes on. */
  method ReadPiece(t: string, i: nat) returns (piece: Piece, next: nat)
    requires i < |t|
    ensures piece == PieceAt(t, i) && next == NextAt(t, i)
  {
    var attr := AttrNameEnd(t, i);
    if attr.Some? {
      var name := t[i..attr.value];
      var value, stop := ScanValue(t, attr.value + 2);
      piece := Attr(name, value);
      next := stop + 1;
    } else {
      piece := Raw(t[i]);
      next := i + 1;
    }
  }

  /**
   * `fix_attributes`: walks the tag's inside with an index; at an attribute
   * start it reads the value and writes `name="value"`, then steps over the
   * closing quote; any other character is copied.
   */
  method FixAttributesScan(t: string) returns (result: string)
    ensures result == FixAttributes(t)
  {
    result := "";
    ghost var pieces: seq<Piece> := [];
    var i := 0;
    while i < |t|
      invariant 0 <= i <= |t| + 1
      invariant pieces + AttrPieces(t, i) == AttrPieces(t, 0)
      invariant result == RenderAll(pieces)
      decreases |t| + 1 - i
    {
      ghost var from := i;
      var piece: Piece;
      piece, i := ReadPiece(t, i);
      assert AttrPieces(t, from) == [piece] + AttrPieces(t, i);
      ShiftPiece(pieces, piece, AttrPieces(t, i));
      RenderAppend(pieces, piece);
      result := result + Render(piece);
      pieces := pieces + [piece];
    }
    assert AttrPieces(t, i) == [];
    assert pieces == AttrPieces(t, 0);
  }

  // ---------------------------------------------------------------------
  // Tag repair (`fix_html_tag`)
  // ---------------------------------------------------------------------

  /** The inside of an opening tag, less a trailing `/`, and whether there was one. */
  function TagInside(tag: string): (r: (string, bool))
    requires 2 <= |tag|
  {
    var inner := tag[1..|tag| - 1];
    if inner != [] && inner[|inner| - 1] == '/' then (inner[..|inner| - 1], true) else (inner, false)
  }

  /**
   * `fix_html_tag` on a match of `<[^>]+>`: placeholders and closing tags
   * are kept; any other tag has its attributes repaired and is closed with
   * ` />` when it is an `img`, `br` or `hr` or was self-closing, with `>`
   * otherwise.
   */
  function FixHtmlTag(tag: string): (r: string)
    requires 2 <= |tag| && tag[0] == '<' && tag[|tag| - 1] == '>'
    ensures IsSubstring("__CODE_BLOCK_", tag) || "</" <= tag ==> r == tag
    ensures !IsSubstring("__CODE_BLOCK_", tag) && !("</" <= tag) ==>
      2 <= |r| && r[0] == '<' && r[|r| - 1] == '>' &&
      (3 <= |r| && r[|r| - 3..] == " />" <==> "<img" <= tag || "<br" <= tag || "<hr" <= tag || TagInside(tag).1)
  {
    if IsSubstring("__CODE_BLOCK_", tag) then tag
    else if "</" <= tag then tag
    else
      var inside := TagInside(tag);
      var fixed := FixAttributes(inside.0);
      if "<img" <= tag || "<br" <= tag || "<hr" <= tag || inside.1 then
        SelfClosedEnding(fixed);
        "<" + fixed + " />"
      else
        OpenEnding(inside.0);
        "<" + fixed + ">"
  }

  /** A tag closed with ` />` starts with `<` and ends in ` />`. */
  lemma SelfClosedEnding(fixed: string)
    ensures var r := "<" + fixed + " />"; 3 <= |r| && r[0] == '<' && r[|r| - 1] == '>' && r[|r| - 3..] == " />"
  {
  }

  /** A tag whose inside does not end in `/` and is closed with `>` does not end in ` />`. */
  lemma OpenEnding(inner: string)
    requires inner == [] || inner[|inner| - 1] != '/'
    ensures var r := "<" + FixAttributes(inner) + ">";
      3 <= |r| ==> r[0] == '<' && r[|r| - 1] == '>' && r[|r| - 3..] != " />"
  {
    var fixed := FixAttributes(inner);
    RenderedLast(inner, 0);
    var r := "<" + fixed + ">";
    if 3 <= |r| {
      assert r[|r| - 2] == fixed[|fixed| - 1];
      assert r[|r| - 3..][1] == r[|r| - 2];
    }
  }

  /**
   * The rebuilt inside of a tag is empty exactly when the inside is, and
   * otherwise ends in the closing quote of an attribute or in the inside's
   * own last character.
   */
  lemma {:induction false} RenderedLast(t: string, i: nat)
    requires i <= |t| + 1
    ensures var f := RenderAll(AttrPieces(t, i));
      (f != [] <==> i < |t|) && (f != [] ==> f[|f| - 1] == '"' || f[|f| - 1] == t[|t| - 1])
    decreases |t| + 1 - i
  {
    if i < |t| {
      var n := NextAt(t, i);
      RenderedLast(t, n);
      var p := PieceAt(t, i);
      RenderCons(p, AttrPieces(t, n));
      var rest := RenderAll(AttrPieces(t, n));
      var f := Render(p) + rest;
      assert RenderAll(AttrPieces(t, i)) == f;
      if rest != [] {
        assert f[|f| - 1] == rest[|rest| - 1];
      } else if p.Attr? {
        assert f[|f| - 1] == '"';
      } else {
        assert f == [t[i]] && i == |t| - 1;
      }
    }
  }

  /** A tag without quotes keeps its inside; only its ending is normalised. */
  lemma FixHtmlTagNoQuotes(tag: string)
    requires 2 <= |tag| && tag[0] == '<' && tag[|tag| - 1] == '>' && '"' !in tag
    requires !IsSubstring("__CODE_BLOCK_", tag) && !("</" <= tag)
    ensures FixHtmlTag(tag) == "<" + TagInside(tag).0 + (if "<img" <= tag || "<br" <= tag || "<hr" <= tag || TagInside(tag).1 then " />" else ">")
  {
    var t := TagInside(tag).0;
    assert forall c :: c in t ==> c in tag;
    FixAttributesNoQuotes(t, 0);
    assert t[0..] == t;
    FixHtmlTagRepaired(tag);
  }

  /** A tag that is neither a placeholder nor a closing tag is rebuilt from its repaired inside. */
  lemma FixHtmlTagRepaired(tag: string)
    requires 2 <= |tag| && tag[0] == '<' && tag[|tag| - 1] == '>'
    requires !IsSubstring("__CODE_BLOCK_", tag) && !("</" <= tag)
    ensures FixHtmlTag(tag) == "<" + FixAttributes(TagInside(tag).0) +
      (if "<img" <= tag || "<br" <= tag || "<hr" <= tag || TagInside(tag).1 then " />" else ">")
  {
  }

  /** A quoted value that runs into stray quotes loses them: `t="x"y"` becomes `t="xy"`. */
  lemma StrayQuoteRendered()
    ensures FixAttributes("t=\"x\"y\"") == "t=\"xy\""
  {
    StrayQuotePieces();
    RenderCons(Attr("t", "xy"), []);
    assert "t" + "=\"" + "xy" + "\"" == "t=\"xy\"";
  }

  lemma StrayQuotePieces()
    ensures AttrPieces("t=\"x\"y\"", 0) == [Attr("t", "xy")]
  {
    var t := "t=\"x\"y\"";
    assert IsWordChar(t[0]) && !IsWordChar(t[1]);
    assert RunEnd(t, 0, IsWordChar) == 1;
    assert AttrNameEnd(t, 0) == Some(1);
    StrayQuoteValue();
    assert t[0..1] == "t";
    assert AttrPieces(t, 7) == [];
  }

  lemma StrayQuoteValue()
    ensures ValueFrom("t=\"x\"y\"", 3) == ("xy", 6)
  {
    var t := "t=\"x\"y\"";
    assert t[3] != '"' && t[4] == '"' && t[5] != '"' && t[6] == '"' && !ClosesValue(t, 4);
    var v6 := ValueFrom(t, 6);
    assert v6 == ([], 6);
    var v5 := ValueFrom(t, 5);
    assert v5.1 == 6 && v5.0 == ['y'];
    var v4 := ValueFrom(t, 4);
    assert v4 == v5;
    var v3 := ValueFrom(t, 3);
    assert v3.1 == 6 && v3.0 == "xy";
  }

  /** A `<br />` that reaches the tag repair is rebuilt with its inside kept, so it gains a space: `<br  />`. */
  lemma FixHtmlTagClosedBr()
    ensures FixHtmlTag("<br />") == "<br  />"
  {
    var tag := "<br />";
    assert tag[1..|tag| - 1] == "br /";
    assert "br /"[..3] == "br ";
    assert TagInside(tag) == ("br ", true);
    assert tag[1] != '/';
    assert !IsSubstring("__CODE_BLOCK_", tag) by {
      if IsSubstring("__CODE_BLOCK_", tag) {
        var k := SubstringWitness("__CODE_BLOCK_", tag);
      }
    }
    assert '"' !in tag;
    FixHtmlTagNoQuotes(tag);
  }

  // ---------------------------------------------------------------------
  // The stages
  // ---------------------------------------------------------------------

  /** `<name\s*>` replaced by `<name />`. */
  function VoidTagAt(name: string, s: string, i: nat): (r: Option<Match>)
  {
    if i + 1 + |name| <= |s| && s[i..i + 1 + |name|] == "<" + name then
      var w := WsEnd(s, i + 1 + |name|);
      if w < |s| && s[w] == '>' then Some(Match(w + 1 - i, "<" + name + " />")) else None
    else None
  }

  function BrAt(s: string, i: nat): Option<Match> { VoidTagAt("br", s, i) }
  function HrAt(s: string, i: nat): Option<Match> { VoidTagAt("hr", s, i) }

  predicate NotGt(c: char) { c != '>' }

  /** `<[^>]+>` replaced by `fix_html_tag` of the match. */
  function TagAt(s: string, i: nat): (r: Option<Match>)
  {
    if i < |s| && s[i] == '<' then
      var e := RunEnd(s, i + 1, NotGt);
      if i + 1 < e < |s| then Some(Match(e + 1 - i, FixHtmlTag(s[i..e + 1]))) else None
    else None
  }

  /** `<!--[\s\S]*?-->` removed. */
  function CommentAt(s: string, i: nat): (r: Option<Match>)
  {
    if i + 4 <= |s| && s[i..i + 4] == "<!--" then
      match IndexOfFrom(s, "-->", i + 4)
      case Some(j) => Some(Match(j + 3 - i, []))
      case None => None
    else None
  }

  predicate NotPipe(c: char) { c != '|' }

  /**
   * `\|([^|]*)<br>([^|]*)\|` replaced by `|\1<br />\2|`: a cell from `|` to
   * the next `|` whose last `<br>` is closed.
   */
  function TableBrAt(s: string, i: nat): (r: Option<Match>)
  {
    if i < |s| && s[i] == '|' then
      var k := RunEnd(s, i + 1, NotPipe);
      if k < |s| then
        match LastOccurrence(s, "<br>", i + 1, k)
        case Some(p) => Some(Match(k + 1 - i, "|" + s[i + 1..p] + "<br />" + s[p + 4..k] + "|"))
        case None => None
      else None
    else None
  }

  /** `sanitize_for_mdx`. */
  function Sanitize(content: string): string
  {
    var fenced := Protect(content, 0, FenceAt, []);
    var coded := Protect(fenced.0, 0, InlineCodeAt, fenced.1);
    var closed := Sub(Sub(coded.0, BrAt), HrAt);
    var tagged := Sub(closed, TagAt);
    var restored := Restore(tagged, coded.1, 0);
    var uncommented := Sub(restored, CommentAt);
    Sub(uncommented, TableBrAt)
  }

  /** Text with no tag and no code span comes through the clean-up unchanged. */
  lemma SanitizePlainText(content: string)
    requires '<' !in content && '`' !in content
    ensures Sanitize(content) == content
  {
    forall j | 0 <= j < |content| ensures !Saves(content, j, FenceAt) {
      if j + 3 <= |content| {
        assert content[j..j + 3][0] == content[j];
      }
    }
    ProtectNone(content, 0, FenceAt, []);
    ProtectNone(content, 0, InlineCodeAt, []);
    assert content[0..] == content;
    NoTagStage(content, BrAt);
    NoTagStage(content, HrAt);
    NoTagStage(content, TagAt);
    NoTagStage(content, CommentAt);
    NoTagStage(content, TableBrAt);
  }

  lemma NoBrOccurs(s: string)
    requires '<' !in s
    ensures forall j: nat :: !OccursAt(s, "<br>", j)
  {
    forall j: nat ensures !OccursAt(s, "<br>", j) {
      if j + 4 <= |s| {
        assert s[j..j + 4][0] == s[j];
      }
    }
  }

  /** The stages after code protection match only text holding a `<`. */
  lemma NoTagStage(s: string, m: (string, nat) -> Option<Match>)
    requires '<' !in s
    requires m == BrAt || m == HrAt || m == TagAt || m == CommentAt || m == TableBrAt
    ensures Sub(s, m) == s
  {
    NoBrOccurs(s);
    forall j | 0 <= j < |s| ensures !Fires(s, j, m) {
      if m == BrAt || m == HrAt {
        if j + 3 <= |s| {
          assert s[j..j + 3][0] == s[j];
        }
      } else if m == CommentAt {
        if j + 4 <= |s| {
          assert s[j..j + 4][0] == s[j];
        }
      }
    }
    SubNoMatch(s, m);
  }

  // ---------------------------------------------------------------------
  // Frontmatter (`convert_md_to_mdx`)
  // ---------------------------------------------------------------------

  /** `description.replace('"', '\\"')`. */
  function EscapeQuotes(d: string): string
  {
    ReplaceAll(d, "\"", "\\\"")
  }

  /** The description: the first `# ` heading, else the title. */
  function Description(content: string, title: string): (r: string)
    ensures FirstHeading(content).Some? ==>
      r == FirstHeading(content).value && r != [] && !IsSpace(r[0]) && forall j :: 0 <= j < |r| ==> r[j] != '\n'
    ensures FirstHeading(content).None? ==> r == title
  {
    match FirstHeading(content)
    case Some(h) => h
    case None => title
  }

  function Frontmatter(title: string, description: string): string
  {
    "---\ntitle: \"" + title + "\"\ndescription: \"" + description + "\"\n---\n\n"
  }

  /** The page text: kept as it is when it already starts with `---`, and otherwise put after a frontmatter block. */
  function WithFrontmatter(c: string, title: string): (r: string)
    ensures "---" <= r
    ensures |c| <= |r| && r[|r| - |c|..] == c
    ensures "---" <= c ==> r == c
    ensures !("---" <= c) ==> r[..|r| - |c|] == Frontmatter(title, EscapeQuotes(Description(c, title)))
  {
    if "---" <= c then c
    else
      var f := Frontmatter(title, EscapeQuotes(Description(c, title)));
      assert f[..3] == "---";
      FrontedJoin(f, c);
      f + c
  }

  /** A block starting with `---` put before a text: the join starts with `---` and splits back into the two. */
  lemma FrontedJoin(f: string, c: string)
    requires 3 <= |f| && f[..3] == "---"
    ensures "---" <= f + c && (f + c)[..|f|] == f && (f + c)[|f|..] == c
  {
    assert (f + c)[..3] == f[..3];
  }

  /**
   * `convert_md_to_mdx` on a file's text: the cleaned text, kept as it is
   * when it already starts with `---`, and otherwise after a frontmatter
   * block holding the title and the quote-escaped description.
   */
  function ConvertMdToMdx(content: string, title: string): string
  {
    WithFrontmatter(Sanitize(content), title)
  }

  // ---------------------------------------------------------------------
  // Reading the frontmatter back
  // ---------------------------------------------------------------------

  /**
   * The text of a YAML double-quoted scalar, read back (YAML 1.2, sections
   * 5.7 and 7.3.1): `\` starts an escape, a bare `"` ends the scalar early.
   * Escapes other than the one-character ones below, and line folding, are
   * not modelled and read as a failure.
   */
  function YamlUnquote(s: string): (r: Option<string>)
  {
    if s == [] then Some([])
    else if s[0] == '"' || s[0] == '\n' then None
    else if s[0] == '\\' then
      if |s| < 2 then None
      else match YamlEscape(s[1])
        case None => None
        case Some(c) =>
          match YamlUnquote(s[2..])
          case None => None
          case Some(rest) => Some([c] + rest)
    else
      match YamlUnquote(s[1..])
      case None => None
      case Some(rest) => Some([s[0]] + rest)
  }

  /** The character a one-character escape `\e` stands for. */
  function YamlEscape(e: char): Option<char>
  {
    match e
    case '0' => Some('\0')
    case 't' => Some('\t')
    case 'n' => Some('\n')
    case 'r' => Some('\r')
    case ' ' => Some(' ')
    case '"' => Some('"')
    case '/' => Some('/')
    case '\\' => Some('\\')
    case _ => None
  }

  predicate IsQuote(c: char) { c == '"' }
  predicate IsQuoteOrBackslash(c: char) { c == '"' || c == '\\' }

  /** Every character that `esc` selects preceded by a backslash. */
  function EscapeChars(s: string, esc: char -> bool): (r: string)
    ensures |s| <= |r|
  {
    if s == [] then []
    else (if esc(s[0]) then ['\\', s[0]] else [s[0]]) + EscapeChars(s[1..], esc)
  }

  /** `str.replace('"', '\\"')` escapes exactly the quotes. */
  lemma {:induction false} EscapeQuotesIsEscapeChars(d: string, i: nat)
    requires i <= |d|
    ensures SubFrom(d, i, Literal("\"", "\\\"")) == EscapeChars(d[i..], IsQuote)
    decreases |d| - i
  {
    if i < |d| {
      EscapeQuotesIsEscapeChars(d, i + 1);
      assert d[i..][1..] == d[i + 1..];
      assert d[i..i + 1] == [d[i]];
    }
  }

  /** Escaped text reads back as the original when every backslash is escaped and there is no line break. */
  lemma {:induction false} EscapeCharsReadBack(s: string, esc: char -> bool)
    requires NoNewline(s)
    requires forall c :: esc(c) ==> IsQuoteOrBackslash(c)
    requires forall k :: 0 <= k < |s| && IsQuoteOrBackslash(s[k]) ==> esc(s[k])
    ensures YamlUnquote(EscapeChars(s, esc)) == Some(s)
  {
    if s != [] {
      assert NoNewline(s[1..]) by {
        forall k | 0 <= k < |s[1..]| ensures s[1..][k] != '\n' { assert s[1..][k] == s[k + 1]; }
      }
      EscapeCharsReadBack(s[1..], esc);
      var rest := EscapeChars(s[1..], esc);
      if esc(s[0]) {
        assert EscapeChars(s, esc)[2..] == rest;
      } else {
        assert EscapeChars(s, esc)[1..] == rest;
      }
      assert s == [s[0]] + s[1..];
    }
  }

  /** The description as the conversion writes it reads back whole when it holds no backslash. */
  lemma DescriptionReadsBack(d: string)
    requires NoNewline(d) && '\\' !in d
    ensures YamlUnquote(EscapeQuotes(d)) == Some(d)
  {
    EscapeQuotesIsEscapeChars(d, 0);
    assert d[0..] == d;
    EscapeCharsReadBack(d, IsQuote);
  }

  /** Text in which `esc` selects nothing is left as it is. */
  lemma {:induction false} EscapeCharsNone(s: string, esc: char -> bool)
    requires forall k :: 0 <= k < |s| ==> !esc(s[k])
    ensures EscapeChars(s, esc) == s
  {
    if s != [] {
      EscapeCharsNone(s[1..], esc);
      assert s == [s[0]] + s[1..];
    }
  }

  /** Reading one plain character. */
  lemma PlainRead(c: char, rest: string, v: string)
    requires c != '"' && c != '\n' && c != '\\'
    requires YamlUnquote(rest) == Some(v)
    ensures YamlUnquote([c] + rest) == Some([c] + v)
  {
    assert ([c] + rest)[1..] == rest;
  }

  /** The YAML reading of the characters `\new`. */
  lemma NewlineEscapeRead()
    ensures YamlUnquote("\\new") == Some("\new")
  {
    PlainRead('w', [], []);
    assert ['w'] + [] == "w";
    PlainRead('e', "w", "w");
    assert ['e'] + "w" == "ew";
    var t := "\\new";
    assert t[2..] == "ew";
    assert t[0] == '\\' && t[1] == 'n';
    assert YamlUnquote(t) == Some(['\n'] + "ew");
    assert ['\n'] + "ew" == "\new";
  }

  /** A heading with a backslash is misread: `C:\new` comes back with a line break in place of `\n`. */
  lemma DescriptionMisread()
    ensures YamlUnquote(EscapeQuotes("C:\\new")) == Some("C:\new")
    ensures YamlUnquote(EscapeQuotes("C:\\new")) != Some("C:\\new")
  {
    EscapeQuotesNoQuote("C:\\new");
    DriveNewlineRead();
  }

  /** A description without quotes is written as it is. */
  lemma EscapeQuotesNoQuote(d: string)
    requires forall k :: 0 <= k < |d| ==> !IsQuote(d[k])
    ensures EscapeQuotes(d) == d
  {
    EscapeQuotesIsEscapeChars(d, 0);
    assert d[0..] == d;
    EscapeCharsNone(d, IsQuote);
  }

  /** The YAML reading of the characters `C:\new`. */
  lemma DriveNewlineRead()
    ensures YamlUnquote("C:\\new") == Some("C:\new")
  {
    NewlineEscapeRead();
    PlainRead(':', "\\new", "\new");
    assert [':'] + "\\new" == ":\\new" && [':'] + "\new" == ":\new";
    PlainRead('C', ":\\new", ":\new");
    assert ['C'] + ":\\new" == "C:\\new" && ['C'] + ":\new" == "C:\new";
  }

  /** The frontmatter with both values escaped for a YAML double-quoted string. */
  function FrontmatterChecked(title: string, description: string): string
  {
    Frontmatter(EscapeChars(title, IsQuoteOrBackslash), EscapeChars(description, IsQuoteOrBackslash))
  }

  /** Escaping backslashes as well as quotes makes every single-line value read back as itself. */
  lemma FrontmatterReadsBack(v: string)
    requires NoNewline(v)
    ensures YamlUnquote(EscapeChars(v, IsQuoteOrBackslash)) == Some(v)
  {
    EscapeCharsReadBack(v, IsQuoteOrBackslash);
  }

  /** The page conversion with the corrected escaping. */
  function ConvertMdToMdxChecked(content: string, title: string): (r: string)
    ensures "---" <= r
    ensures |Sanitize(content)| <= |r| && r[|r| - |Sanitize(content)|..] == Sanitize(content)
    ensures "---" <= Sanitize(content) ==> r == Sanitize(content)
    ensures !("---" <= Sanitize(content)) ==>
      r[..|r| - |Sanitize(content)|] == FrontmatterChecked(title, Description(Sanitize(content), title))
  {
    WithFrontmatterChecked(Sanitize(content), title)
  }

  /** `WithFrontmatter` with the corrected escaping. */
  function WithFrontmatterChecked(c: string, title: string): (r: string)
    ensures "---" <= r
    ensures |c| <= |r| && r[|r| - |c|..] == c
    ensures "---" <= c ==> r == c
    ensures !("---" <= c) ==> r[..|r| - |c|] == FrontmatterChecked(title, Description(c, title))
  {
    if "---" <= c then c
    else
      var f := FrontmatterChecked(title, Description(c, title));
      assert f[..3] == "---";
      FrontedJoin(f, c);
      f + c
  }
}
