/**
 * The VitePress-to-Nextra migration of `scripts/migrate-content.py`: each
 * Markdown page has its frontmatter reduced to `title` and `description`
 * (or gets a `title` when it has none), Vue component tags rewritten as
 * JSX, `<img>` tags closed, `<br>`/`<hr>` closed and `class=` renamed; a
 * directory without `_meta.json` gets one listing its pages and
 * sub-directories with their titles.
 */
module MigrateVitePress {
  import opened Options
  import opened Text
  import opened Rewrite
  import opened Markdown
  import opened Meta
  import opened Sorting
  import opened JsxTags

  // ---------------------------------------------------------------------
  // Titles
  // ---------------------------------------------------------------------

  /** Where `^\d+(\.\d+)?-?` stops matching at the start of `name` (0 when it does not match). */
  function NumberPrefixEnd(name: string): (r: nat)
    ensures r <= |name|
    ensures r > 0 ==> IsDigit(name[0])
  {
    var d1 := RunEnd(name, 0, IsDigit);
    if d1 == 0 then 0
    else
      var d2 := if d1 < |name| && name[d1] == '.' && RunEnd(name, d1 + 1, IsDigit) > d1 + 1 then RunEnd(name, d1 + 1, IsDigit) else d1;
      if d2 < |name| && name[d2] == '-' then d2 + 1 else d2
  }

  /** What `str.strip()` keeps is taken from its input, so it holds no `-` or `_` when its input holds none. */
  lemma StripNoSeparator(s: string)
    requires '-' !in s && '_' !in s
    ensures '-' !in Strip(s) && '_' !in Strip(s)
  {
    var a := TrimSlice(s, IsSpace);
    forall k | 0 <= k < |Strip(s)| ensures Strip(s)[k] != '-' && Strip(s)[k] != '_' {
      assert Strip(s)[k] == s[a + k];
    }
  }

  /** `.replace("-", " ").replace("_", " ")`. */
  function Despace(s: string): (r: string)
    ensures |r| == |s| && '-' !in r && '_' !in r
  {
    ReplaceChar(ReplaceChar(s, '-', ' '), '_', ' ')
  }

  /**
   * `filename_to_title`: the stem without its number prefix, with `-` and
   * `_` turned into spaces and the ends trimmed; `"Untitled"` when nothing
   * is left.
   */
  function FilenameToTitle(filename: string): (r: string)
    ensures r != [] && !IsSpace(r[0]) && !IsSpace(r[|r| - 1])
    ensures '-' !in r && '_' !in r
  {
    var t := TrimmedStem(Stem(filename));
    if t == [] then Untitled() else t
  }

  /** The title of a file whose name leaves nothing. */
  function Untitled(): (r: string)
    ensures r != [] && !IsSpace(r[0]) && !IsSpace(r[|r| - 1]) && '-' !in r && '_' !in r
  {
    "Untitled"
  }

  /** The stem without its number prefix, separators turned into spaces, trimmed. */
  function TrimmedStem(name: string): (r: string)
    ensures r == [] || (!IsSpace(r[0]) && !IsSpace(r[|r| - 1]))
    ensures '-' !in r && '_' !in r
  {
    var spaced := Despace(name[NumberPrefixEnd(name)..]);
    StripNoSeparator(spaced);
    Strip(spaced)
  }

  /** The number prefix of `<n>.<m>-<rest>` is `<n>.<m>-`. */
  lemma NumberPrefixOf(n: string, m: string, rest: string)
    requires n != [] && AllDigits(n) && m != [] && AllDigits(m)
    ensures NumberPrefixEnd(n + "." + m + "-" + rest) == |n| + |m| + 2
  {
    var name := n + "." + m + "-" + rest;
    assert forall j :: 0 <= j < |n| ==> name[j] == n[j];
    assert name[|n|] == '.';
    RunEndIs(name, 0, IsDigit, |n|);
    assert forall j :: |n| + 1 <= j < |n| + 1 + |m| ==> name[j] == m[j - |n| - 1];
    assert name[|n| + 1 + |m|] == '-';
    RunEndIs(name, |n| + 1, IsDigit, |n| + 1 + |m|);
  }

  /** A page named `<n>.<m>-<title>.md` gets the title of `<title>.md`. */
  lemma NumberedTitle(n: string, m: string, t: string)
    requires n != [] && AllDigits(n) && m != [] && AllDigits(m)
    requires t != [] && !IsDigit(t[0]) && '.' !in t
    ensures FilenameToTitle(n + "." + m + "-" + t + ".md") == FilenameToTitle(t + ".md")
  {
    var name := n + "." + m + "-" + t;
    MdStem(name);
    MdStem(t);
    assert n + "." + m + "-" + t + ".md" == name + ".md";
    NumberedStem(n, m, t);
  }

  /** The stem of `<s>.md` is `s`. */
  lemma MdStem(s: string)
    requires s != []
    ensures Stem(s + ".md") == s
  {
    StemOfExtension(s, "md");
    assert s + "." + "md" == s + ".md";
  }

  /** The stem `<n>.<m>-<title>` loses its number prefix and keeps `<title>`. */
  lemma NumberedStem(n: string, m: string, t: string)
    requires n != [] && AllDigits(n) && m != [] && AllDigits(m)
    requires t != [] && !IsDigit(t[0])
    ensures TrimmedStem(n + "." + m + "-" + t) == TrimmedStem(t)
  {
    var name := n + "." + m + "-" + t;
    NumberPrefixOf(n, m, t);
    assert name[|n| + |m| + 2..] == t;
    assert NumberPrefixEnd(t) == 0;
    assert t[0..] == t;
  }

  /** `extract_title`: the first `# ` heading, trimmed, else the title made from the file name. */
  function ExtractTitle(content: string, filename: string): (r: string)
    ensures r != [] && !IsSpace(r[0]) && !IsSpace(r[|r| - 1])
    ensures FirstHeading(content).None? ==> r == FilenameToTitle(filename)
  {
    match FirstHeading(content)
    case Some(h) =>
      StripKeepsFirst(h);
      Strip(h)
    case None => FilenameToTitle(filename)
  }

  /** Text that starts with a non-space character is not stripped to nothing. */
  lemma StripKeepsFirst(h: string)
    requires h != [] && !IsSpace(h[0])
    ensures Strip(h) != []
  {
    assert TrimLeft(h, IsSpace) == h;
  }

  // ---------------------------------------------------------------------
  // Frontmatter
  // ---------------------------------------------------------------------

  /** The last newline in `s[lo..hi]`. */
  function LastNewline(s: string, lo: nat, hi: nat): (r: Option<nat>)
    requires lo <= hi <= |s|
    ensures r.Some? ==> lo <= r.value < hi && s[r.value] == '\n'
    ensures r.Some? ==> forall j :: r.value < j < hi ==> s[j] != '\n'
    ensures r.None? ==> forall j :: lo <= j < hi ==> s[j] != '\n'
    decreases hi
  {
    if hi == lo then None
    else if s[hi - 1] == '\n' then Some(hi - 1)
    else LastNewline(s, lo, hi - 1)
  }

  /**
   * `\n---\s*\n` at `p`, the closing line of a frontmatter block: the
   * whitespace run after `---` is taken whole and given back until a
   * newline follows, so the match ends after the last newline of the run.
   */
  function CloseEnd(s: string, p: nat): (r: Option<nat>)
    ensures r.Some? ==> OccursAt(s, "\n---", p) && p + 5 <= r.value <= |s| && s[r.value - 1] == '\n'
    ensures r.Some? ==> forall j :: p + 4 <= j < r.value ==> IsSpace(s[j])
  {
    if OccursAt(s, "\n---", p) then
      var w := WsEnd(s, p + 4);
      match LastNewline(s, p + 4, w)
      case Some(q) => Some(q + 1)
      case None => None
    else None
  }

  /** The lazy `(.*?)` followed by the closing line: the first closing line at or after `p`. */
  function LazyClose(s: string, p: nat): (r: Option<(nat, nat)>)
    requires p <= |s|
    ensures r.Some? ==> p <= r.value.0 && CloseEnd(s, r.value.0) == Some(r.value.1)
    decreases |s| - p
  {
    match CloseEnd(s, p)
    case Some(e) => Some((p, e))
    case None => if p < |s| then LazyClose(s, p + 1) else None
  }

  /** Where a frontmatter block's text starts and ends, and where the block ends. */
  datatype Block = Block(start: nat, close: nat, end: nat)

  /**
   * `b` is a match of `---\s*\n(.*?)\n---\s*\n` at the start of `s`: the
   * opening and closing `---` are each followed by whitespace up to the
   * newline that ends them, and the text between them is `s[b.start..b.close]`.
   */
  ghost predicate IsBlock(s: string, b: Block)
  {
    |s| >= 3 && s[..3] == "---" && 4 <= b.start <= b.close && b.close + 5 <= b.end <= |s| &&
    (forall j :: 3 <= j < b.start - 1 ==> IsSpace(s[j])) && s[b.start - 1] == '\n' &&
    OccursAt(s, "\n---", b.close) &&
    (forall j :: b.close + 4 <= j < b.end - 1 ==> IsSpace(s[j])) && s[b.end - 1] == '\n'
  }

  /**
   * The opening `---\s*\n` with its `\s*` taken greedily: the newlines of
   * the whitespace run after `---` below `hi` are tried from the last one
   * back, each followed by the lazy search for the closing line.
   */
  function OpenBefore(s: string, hi: nat): (r: Option<Block>)
    requires 3 <= hi <= |s| && s[..3] == "---"
    requires forall j :: 3 <= j < hi ==> IsSpace(s[j])
    ensures r.Some? ==> IsBlock(s, r.value)
    decreases hi
  {
    match LastNewline(s, 3, hi)
    case None => None
    case Some(q) =>
      match LazyClose(s, q + 1)
      case Some(c) => Some(Block(q + 1, c.0, c.1))
      case None => OpenBefore(s, q)
  }

  /** `re.match(r"^---\s*\n(.*?)\n---\s*\n", content, re.DOTALL)`. */
  function FrontmatterMatch(content: string): (r: Option<Block>)
    ensures r.Some? ==> IsBlock(content, r.value)
  {
    if |content| >= 3 && content[..3] == "---" then OpenBefore(content, WsEnd(content, 3)) else None
  }

  /** The fields a frontmatter line sets: `Some((key, value))` for a line holding `:` and not starting with a space. */
  function ParseLine(line: string): (r: Option<(string, string)>)
    ensures r.Some? ==> ':' in line && (line == [] || line[0] != ' ')
  {
    if line != [] && line[0] == ' ' then None
    else
      match IndexOfFrom(line, ":", 0)
      case None => None
      case Some(c) =>
        ColonOccurs(line, c);
        Some((Strip(line[..c]), Strip(line[c + 1..])))
  }

  /** A `:` found at `c` lies inside the line. */
  lemma ColonOccurs(line: string, c: nat)
    requires OccursAt(line, ":", c)
    ensures c < |line| && ':' in line
  {
    assert line[c..c + 1] == ":";
    assert line[c] == ':';
  }

  predicate Kept(key: string) { key == "title" || key == "description" }

  /**
   * The `result` dictionary after the loop over `lines`, each line read by
   * `parse`: the last value of each kept key, keys in first-seen order.
   */
  function KeptFields(lines: seq<string>, parse: string -> Option<(string, string)>): seq<(string, string)>
  {
    if lines == [] then []
    else
      var acc := KeptFields(lines[..|lines| - 1], parse);
      var p := parse(lines[|lines| - 1]);
      if p.Some? && Kept(p.value.0) then Put(acc, p.value.0, p.value.1) else acc
  }

  /** The value the last line setting `key` gives it. */
  function LastValue(lines: seq<string>, key: string, parse: string -> Option<(string, string)>): Option<string>
  {
    if lines == [] then None
    else
      var p := parse(lines[|lines| - 1]);
      if p.Some? && p.value.0 == key then Some(p.value.1) else LastValue(lines[..|lines| - 1], key, parse)
  }

  /** One more line read. */
  lemma KeptFieldsStep(lines: seq<string>, i: nat, parse: string -> Option<(string, string)>)
    requires i < |lines|
    ensures KeptFields(lines[..i + 1], parse) ==
      if parse(lines[i]).Some? && Kept(parse(lines[i]).value.0)
      then Put(KeptFields(lines[..i], parse), parse(lines[i]).value.0, parse(lines[i]).value.1)
      else KeptFields(lines[..i], parse)
  {
    assert lines[..i + 1][..i] == lines[..i];
  }

  /** Only `title` and `description` are kept, each once. */
  lemma {:induction false} KeptFieldsDistinct(lines: seq<string>, parse: string -> Option<(string, string)>)
    ensures DistinctKeys(KeptFields(lines, parse))
    ensures forall i :: 0 <= i < |KeptFields(lines, parse)| ==> Kept(KeptFields(lines, parse)[i].0)
  {
    if lines != [] {
      var init := lines[..|lines| - 1];
      KeptFieldsDistinct(init, parse);
      var p := parse(lines[|lines| - 1]);
      if p.Some? && Kept(p.value.0) {
        PutKeepsKept(KeptFields(init, parse), p.value.0, p.value.1);
      }
    }
  }

  /** Storing a kept key leaves only kept keys. */
  lemma PutKeepsKept(m: seq<(string, string)>, k: string, v: string)
    requires Kept(k) && forall i :: 0 <= i < |m| ==> Kept(m[i].0)
    ensures forall i :: 0 <= i < |Put(m, k, v)| ==> Kept(Put(m, k, v)[i].0)
  {
  }

  /** Each kept field has the value of the last line that sets it. */
  lemma {:induction false} KeptFieldsValues(lines: seq<string>, parse: string -> Option<(string, string)>)
    ensures forall i :: 0 <= i < |KeptFields(lines, parse)| ==>
      LastValue(lines, KeptFields(lines, parse)[i].0, parse) == Some(KeptFields(lines, parse)[i].1)
  {
    if lines != [] {
      var init := lines[..|lines| - 1];
      KeptFieldsValues(init, parse);
      var acc := KeptFields(init, parse);
      var f := KeptFields(lines, parse);
      var p := parse(lines[|lines| - 1]);
      KeptFieldsDistinct(init, parse);
      forall i | 0 <= i < |f| ensures LastValue(lines, f[i].0, parse) == Some(f[i].1) {
        if p.Some? && Kept(p.value.0) {
          var k := p.value.0;
          if f[i].0 == k {
            assert LastValue(lines, k, parse) == Some(p.value.1);
            if k in Keys(acc) {
              assert f[i] == (k, p.value.1);
            } else {
              assert i == |acc|;
            }
          } else {
            assert i < |acc| && f[i] == acc[i];
            assert LastValue(init, acc[i].0, parse) == Some(acc[i].1);
            assert LastValue(lines, f[i].0, parse) == LastValue(init, acc[i].0, parse);
          }
        } else {
          assert f == acc && Kept(acc[i].0);
          assert LastValue(init, acc[i].0, parse) == Some(acc[i].1);
          assert LastValue(lines, f[i].0, parse) == LastValue(init, acc[i].0, parse);
        }
      }
    }
  }

  /** A kept key is present exactly when some line sets it. */
  lemma {:induction false} KeptFieldsKeys(lines: seq<string>, k: string, parse: string -> Option<(string, string)>)
    requires Kept(k)
    ensures k in Keys(KeptFields(lines, parse)) <==> LastValue(lines, k, parse).Some?
  {
    if lines != [] {
      var init := lines[..|lines| - 1];
      KeptFieldsKeys(init, k, parse);
      var p := parse(lines[|lines| - 1]);
      if p.Some? && Kept(p.value.0) {
        PutKeys(KeptFields(init, parse), p.value.0, p.value.1, k);
      }
    }
  }

  /** `simplify_frontmatter`'s dictionary: the kept fields, with a `title` from the file name added last when none was set. */
  function Simplified(fm: string, filename: string): seq<(string, string)>
  {
    var kept := KeptFields(Split(Strip(fm), '\n'), ParseLine);
    if "title" in Keys(kept) then kept else Put(kept, "title", FilenameToTitle(filename))
  }

  /** The line written for one field. */
  function FieldLine(field: (string, string)): string
  {
    field.0 + ": " + field.1
  }

  function FieldLines(fields: seq<(string, string)>): (r: seq<string>)
    ensures |r| == |fields| && forall i :: 0 <= i < |fields| ==> r[i] == FieldLine(fields[i])
  {
    seq(|fields|, i requires 0 <= i < |fields| => FieldLine(fields[i]))
  }

  /** `"\n".join(f"{k}: {v}" for k, v in result.items()) + "\n"`. */
  function RenderFields(fields: seq<(string, string)>): string
  {
    Join(FieldLines(fields), "\n") + "\n"
  }

  /** Each line, newline included. */
  function Terminated(lines: seq<string>): string
  {
    if lines == [] then [] else lines[0] + "\n" + Terminated(lines[1..])
  }

  /** Joining with newlines and adding one at the end terminates every line. */
  lemma {:induction false} JoinTerminated(lines: seq<string>)
    requires lines != []
    ensures Join(lines, "\n") + "\n" == Terminated(lines)
    decreases |lines|
  {
    if |lines| > 1 {
      JoinTerminated(lines[1..]);
      assert Terminated(lines[1..][..0]) == [];
    }
  }

  /** Every line of a terminated text is in it, newline included. */
  lemma {:induction false} TerminatedHolds(lines: seq<string>, i: nat)
    requires i < |lines|
    ensures IsSubstring(lines[i] + "\n", Terminated(lines))
    decreases i
  {
    var t := Terminated(lines);
    if i == 0 {
      assert t == (lines[0] + "\n") + Terminated(lines[1..]);
      SubstringAt(lines[0] + "\n", t, 0);
    } else {
      TerminatedHolds(lines[1..], i - 1);
      assert t == (lines[0] + "\n") + Terminated(lines[1..]);
      assert t[|lines[0] + "\n"|..] == Terminated(lines[1..]);
      SubstringOfSuffix(lines[i] + "\n", t, |lines[0] + "\n"|);
    }
  }

  /** The simplified frontmatter keeps only `title` and `description`, each once, and always has a `title`. */
  lemma SimplifiedFields(fm: string, filename: string)
    ensures DistinctKeys(Simplified(fm, filename))
    ensures forall i :: 0 <= i < |Simplified(fm, filename)| ==> Kept(Simplified(fm, filename)[i].0)
    ensures "title" in Keys(Simplified(fm, filename))
  {
    var kept := KeptFields(Split(Strip(fm), '\n'), ParseLine);
    KeptFieldsDistinct(Split(Strip(fm), '\n'), ParseLine);
    var f := Simplified(fm, filename);
    if "title" !in Keys(kept) {
      assert f == kept + [("title", FilenameToTitle(filename))];
    }
  }

  /** The title the simplified frontmatter carries: the last `title:` line's value, else the one made from the file name. */
  lemma SimplifiedTitle(fm: string, filename: string)
    ensures var t := LastValue(Split(Strip(fm), '\n'), "title", ParseLine);
      "title" in Keys(Simplified(fm, filename)) &&
      Get(Simplified(fm, filename), "title") == if t.Some? then t.value else FilenameToTitle(filename)
  {
    var lines := Split(Strip(fm), '\n');
    var kept := KeptFields(lines, ParseLine);
    KeptFieldsKeys(lines, "title", ParseLine);
    var f := Simplified(fm, filename);
    SimplifiedFields(fm, filename);
    if "title" in Keys(kept) {
      KeptFieldsValues(lines, ParseLine);
      var j :| 0 <= j < |kept| && kept[j].0 == "title";
      GetIs(f, "title", kept[j].1);
    } else {
      assert f[|kept|] == ("title", FilenameToTitle(filename));
      GetIs(f, "title", FilenameToTitle(filename));
    }
  }

  /** Every field is written on a line of its own, ended by a newline. */
  lemma RenderTerminated(fields: seq<(string, string)>)
    requires fields != []
    ensures RenderFields(fields) == Terminated(FieldLines(fields))
  {
    JoinTerminated(FieldLines(fields));
  }

  /** The simplified frontmatter holds its `title:` line. */
  lemma SimplifiedTitleLine(fm: string, filename: string)
    ensures "title" in Keys(Simplified(fm, filename))
    ensures IsSubstring("title: " + Get(Simplified(fm, filename), "title") + "\n", RenderFields(Simplified(fm, filename)))
  {
    var f := Simplified(fm, filename);
    SimplifiedFields(fm, filename);
    var j :| 0 <= j < |f| && f[j].0 == "title";
    GetIs(f, "title", f[j].1);
    RenderTerminated(f);
    TerminatedHolds(FieldLines(f), j);
    assert "title" + ": " == "title: ";
    assert FieldLines(f)[j] + "\n" == "title: " + f[j].1 + "\n";
  }

  /** `simplify_frontmatter`, line by line. */
  method SimplifyFrontmatter(fm: string, filename: string) returns (r: string)
    ensures r == RenderFields(Simplified(fm, filename))
  {
    var lines := Split(Strip(fm), '\n');
    var result: seq<(string, string)> := [];
    for i := 0 to |lines|
      invariant result == KeptFields(lines[..i], ParseLine)
    {
      KeptFieldsStep(lines, i, ParseLine);
      var parsed := ParseLine(lines[i]);
      if parsed.Some? {
        var (key, value) := parsed.value;
        if key == "title" || key == "description" {
          result := Put(result, key, value);
        }
      }
    }
    assert lines[..|lines|] == lines;
    if "title" !in Keys(result) {
      result := Put(result, "title", FilenameToTitle(filename));
    }
    r := RenderFields(result);
  }

  /** A frontmatter block holding `head`, a blank line, then `rest`. */
  function WithBlock(head: string, rest: string): (r: string)
    ensures "---\n" <= r && |rest| <= |r|
    ensures r[..|r| - |rest|] == "---\n" + head + "---\n\n" && r[|r| - |rest|..] == rest
  {
    "---\n" + head + "---\n\n" + rest
  }

  /**
   * `convert_frontmatter`: an existing block is replaced by its simplified
   * form and the text after it is kept; without a block, one holding the
   * extracted title is put in front of the whole text.
   */
  function ConvertFrontmatter(content: string, filename: string): (r: string)
    ensures "---\n" <= r
  {
    match FrontmatterMatch(content)
    case Some(b) => WithBlock(RenderFields(Simplified(content[b.start..b.close], filename)), content[b.end..])
    case None => WithBlock("title: " + ExtractTitle(content, filename) + "\n", content)
  }

  /** The text after an existing block is kept, and the block becomes its simplified form. */
  lemma ConvertKeepsBody(content: string, filename: string, b: Block)
    requires FrontmatterMatch(content) == Some(b)
    ensures var r := ConvertFrontmatter(content, filename);
      |content| - b.end <= |r| && r[|r| - (|content| - b.end)..] == content[b.end..] &&
      r[..|r| - (|content| - b.end)] == "---\n" + RenderFields(Simplified(content[b.start..b.close], filename)) + "---\n\n"
  {
  }

  /** Text without a block is kept whole, behind a block holding its extracted title. */
  lemma ConvertAddsTitle(content: string, filename: string)
    requires FrontmatterMatch(content).None?
    ensures var r := ConvertFrontmatter(content, filename);
      |content| <= |r| && r[|r| - |content|..] == content &&
      r[..|r| - |content|] == "---\n" + ("title: " + ExtractTitle(content, filename) + "\n") + "---\n\n"
  {
  }

  /** `convert_content` with a given `<img>` rewrite: the frontmatter step, then the tag rewrites. */
  function ConvertContentWith(content: string, filename: string, img: (string, nat) -> Option<Match>): string
  {
    ConvertTags(ConvertFrontmatter(content, filename), img)
  }

  /** `convert_content` as written: `<img>` tags are rewritten by `ImgAt`. */
  function ConvertContentAsWritten(content: string, filename: string): (r: string)
    ensures "---\n" <= r
  {
    ImgLead();
    ConvertContentHead(content, filename, ImgAt);
    ConvertContentWith(content, filename, ImgAt)
  }

  /** `convert_content` corrected: `<img>` tags are normalised by `ImgAtChecked`. */
  function ConvertContent(content: string, filename: string): (r: string)
    ensures "---\n" <= r
  {
    ImgLead();
    ConvertContentHead(content, filename, ImgAtChecked);
    ConvertContentWith(content, filename, ImgAtChecked)
  }

  /** Every converted page still opens a frontmatter block, whichever `<img>` rewrite starting at `<` is used. */
  lemma ConvertContentHead(content: string, filename: string, img: (string, nat) -> Option<Match>)
    requires LeadsWith(img, IsLt)
    ensures "---\n" <= ConvertContentWith(content, filename, img)
  {
    DashesKept(ConvertFrontmatter(content, filename), img);
  }

  /** The tag rewrites leave an opening `---` line in place. */
  lemma DashesKept(f: string, img: (string, nat) -> Option<Match>)
    requires "---\n" <= f && LeadsWith(img, IsLt)
    ensures "---\n" <= ConvertTags(f, img)
  {
    assert f[..4] == "---\n";
    assert forall j :: 0 <= j < 4 ==> f[j] == '-' || f[j] == '\n';
    ConvertTagsKeepsPrefix(f, img, 4);
  }

  // ---------------------------------------------------------------------
  // _meta.json
  // ---------------------------------------------------------------------

  /** `name.replace("-", " ").title()`. */
  function StemTitle(stem: string): (r: string)
    ensures |r| == |stem| && '-' !in r
  {
    var spaced := ReplaceChar(stem, '-', ' ');
    var r := TitleCase(spaced);
    assert forall i :: 0 <= i < |r| ==> r[i] != '-' by {
      forall i | 0 <= i < |r| ensures r[i] != '-' { assert spaced[i] != '-'; }
    }
    r
  }

  /** `re.search(r"^title:\s*(.+)$", content, re.MULTILINE).group(1)`. */
  function TitleField(content: string): (r: Option<string>)
    ensures r.Some? ==> r.value != [] && '\n' !in r.value
  {
    FindCapture(content, 0, "title:", 0)
  }

  /** `.strip().strip("\"'")` on a one-line value. */
  function FieldTitle(t: string): (r: string)
    requires '\n' !in t
    ensures '\n' !in r && (r == [] || (!IsQuoteChar(r[0]) && !IsQuoteChar(r[|r| - 1])))
    ensures SliceOf(r, t)
  {
    TrimKeepsOut(t, IsSpace, '\n');
    TrimKeepsOut(Strip(t), IsQuoteChar, '\n');
    TrimIsSlice(t, IsSpace);
    TrimIsSlice(Strip(t), IsQuoteChar);
    SliceOfSlice(Trim(Strip(t), IsQuoteChar), Strip(t), t);
    Trim(Strip(t), IsQuoteChar)
  }

  /** The first `# ` heading, stripped. */
  function HeadingTitle(content: string): (r: Option<string>)
    ensures r.Some? ==> r.value != [] && '\n' !in r.value && !IsSpace(r.value[0]) && !IsSpace(r.value[|r.value| - 1])
    ensures r.None? <==> FirstHeading(content).None?
    ensures r.Some? ==> SliceOf(r.value, FirstHeading(content).value)
  {
    match FirstHeading(content)
    case Some(h) =>
      StrippedHeading(h);
      Some(Strip(h))
    case None => None
  }

  /** A stripped heading capture is a nonempty one-line slice of it. */
  lemma StrippedHeading(h: string)
    requires h != [] && !IsSpace(h[0]) && forall j :: 0 <= j < |h| ==> h[j] != '\n'
    ensures Strip(h) != [] && '\n' !in Strip(h) && SliceOf(Strip(h), h)
  {
    StripKeepsFirst(h);
    TrimIsSlice(h, IsSpace);
    assert '\n' !in h;
    TrimKeepsOut(h, IsSpace, '\n');
  }

  /**
   * `get_file_title`: the `title:` line with spaces and quotes stripped,
   * else the first `# ` heading, else the file stem; `content` is `None`
   * when the file cannot be read.
   */
  function GetFileTitle(content: Option<string>, stem: string): (r: string)
    ensures content.None? ==> r == StemTitle(stem)
    ensures content.Some? && TitleField(content.value).Some? ==>
      '\n' !in r && (r == [] || (!IsQuoteChar(r[0]) && !IsQuoteChar(r[|r| - 1]))) &&
      SliceOf(r, TitleField(content.value).value)
    ensures content.Some? && TitleField(content.value).None? && FirstHeading(content.value).Some? ==>
      r != [] && '\n' !in r && !IsSpace(r[0]) && !IsSpace(r[|r| - 1]) &&
      SliceOf(r, FirstHeading(content.value).value)
    ensures content.Some? && TitleField(content.value).None? && FirstHeading(content.value).None? ==>
      r == StemTitle(stem)
  {
    if content.None? then StemTitle(stem)
    else if TitleField(content.value).Some? then FieldTitle(TitleField(content.value).value)
    else if HeadingTitle(content.value).Some? then HeadingTitle(content.value).value
    else StemTitle(stem)
  }

  /** Where the pieces of a block opened by a `title:` line lie. */
  lemma TitleBlockParts(t: string, rest: string)
    ensures var r := "---\n" + ("title: " + t + "\n") + "---\n\n" + rest;
      11 + |t| < |r| && r[0] == '-' && r[1] == '-' && r[2] == '-' && r[3] == '\n' &&
      r[4..10] == "title:" && r[10] == ' ' && r[11..11 + |t|] == t && r[11 + |t|] == '\n'
  {
    var head := "title: " + t + "\n";
    var a := "---\n" + head;
    var r := a + "---\n\n" + rest;
    assert r[..|a|] == a;
    assert a[4..4 + |head|] == head;
    assert head[..6] == "title:";
    assert head[7..7 + |t|] == t;
  }

  /** A page that opens with a `title:` line gives that line's value as its `title:` field. */
  lemma TitleFieldOfHead(r: string, t: string)
    requires 11 + |t| < |r| && r[0] == '-' && r[1] == '-' && r[2] == '-' && r[3] == '\n'
    requires r[4..10] == "title:" && r[10] == ' ' && r[11..11 + |t|] == t && r[11 + |t|] == '\n'
    requires t != [] && !IsSpace(t[0]) && '\n' !in t
    ensures TitleField(r) == Some(t)
  {
    var e := 11 + |t|;
    assert WsEnd(r, 10) == 11 by {
      assert IsSpace(r[10]) && r[11] == t[0];
    }
    assert LineEnd(r, 11) == e by {
      forall j | 11 <= j < e ensures r[j] != '\n' { assert r[j] == t[j - 11]; }
    }
    assert CaptureAt(r, 4, "title:", 0) == Some(t);
    assert r[0] != 't' && r[0..6] != "title:";
    assert CaptureAt(r, 0, "title:", 0).None?;
    assert !LineStart(r, 1) && !LineStart(r, 2) && !LineStart(r, 3);
    assert FindCapture(r, 4, "title:", 0) == Some(t);
    assert FindCapture(r, 3, "title:", 0) == Some(t);
    assert FindCapture(r, 2, "title:", 0) == Some(t);
    assert FindCapture(r, 1, "title:", 0) == Some(t);
  }

  /**
   * The `title:` line that `convert_frontmatter` adds to a page without
   * frontmatter is read back by `get_file_title`, when the title carries no
   * quote at either end.
   */
  lemma AddedTitleReadBack(content: string, filename: string, stem: string)
    requires FrontmatterMatch(content).None?
    requires var t := ExtractTitle(content, filename); '\n' !in t && !IsQuoteChar(t[0]) && !IsQuoteChar(t[|t| - 1])
    ensures GetFileTitle(Some(ConvertFrontmatter(content, filename)), stem) == ExtractTitle(content, filename)
  {
    var t := ExtractTitle(content, filename);
    var r := ConvertFrontmatter(content, filename);
    TitleBlockParts(t, content);
    TitleFieldOfHead(r, t);
    TrimmedAlready(t, IsSpace);
    TrimmedAlready(t, IsQuoteChar);
  }

  /**
   * An entry of a target directory as `Path.iterdir()` yields it; for a
   * file, `content` is its text (`None` when it cannot be read).
   */
  datatype Entry = Entry(name: string, isDir: bool, content: Option<string>)

  function EntryName(e: Entry): string { e.name }

  /** The entry goes into `_meta.json`: its name does not start with `_`, and it is an `.mdx` page or a directory. */
  predicate Listed(e: Entry)
  {
    !("_" <= e.name) && (e.isDir || Suffix(e.name) == ".mdx")
  }

  /** The key of a listed entry: the stem of a page, the name of a directory. */
  function EntryKey(e: Entry): string
  {
    if e.isDir then e.name else Stem(e.name)
  }

  /** The title of a listed entry: a page's own title, a directory's name title-cased. */
  function EntryTitle(e: Entry): string
  {
    if e.isDir then StemTitle(e.name) else GetFileTitle(e.content, Stem(e.name))
  }

  /**
   * The `items` dictionary after the entries `es`, in that order, have been
   * visited, each listed entry titled by `title` (`EntryTitle` in the script).
   */
  function MetaItems(es: seq<Entry>, title: Entry -> string): (r: seq<(string, string)>)
    ensures DistinctKeys(r)
  {
    if es == [] then []
    else
      var m := MetaItems(es[..|es| - 1], title);
      var e := es[|es| - 1];
      if Listed(e) then Put(m, EntryKey(e), title(e)) else m
  }

  /** Visiting one more entry. */
  lemma MetaItemsStep(es: seq<Entry>, title: Entry -> string, i: nat)
    requires i < |es|
    ensures MetaItems(es[..i + 1], title) ==
      if Listed(es[i]) then Put(MetaItems(es[..i], title), EntryKey(es[i]), title(es[i])) else MetaItems(es[..i], title)
  {
    assert es[..i + 1][..i] == es[..i];
  }

  /** The keys of the dictionary are exactly the keys of the listed entries. */
  lemma {:induction false} MetaItemsKeys(es: seq<Entry>, title: Entry -> string, k: string)
    ensures k in Keys(MetaItems(es, title)) <==> exists e :: e in es && Listed(e) && EntryKey(e) == k
    decreases |es|
  {
    if es != [] {
      MetaItemsKeys(es[..|es| - 1], title, k);
      MetaItemsKeysStep(es, title, k);
      ListedKeyStep(es, k);
    }
  }

  /** The last entry adds its key when it is listed, and no other. */
  lemma MetaItemsKeysStep(es: seq<Entry>, title: Entry -> string, k: string)
    requires es != []
    ensures var e := es[|es| - 1];
      k in Keys(MetaItems(es, title)) <==> k in Keys(MetaItems(es[..|es| - 1], title)) || (Listed(e) && EntryKey(e) == k)
  {
    var e := es[|es| - 1];
    if Listed(e) {
      PutKeys(MetaItems(es[..|es| - 1], title), EntryKey(e), title(e), k);
    }
  }

  /** Some listed entry has key `k` exactly when one before the last does or the last does. */
  lemma ListedKeyStep(es: seq<Entry>, k: string)
    requires es != []
    ensures var init := es[..|es| - 1]; var e := es[|es| - 1];
      (exists x :: x in es && Listed(x) && EntryKey(x) == k) <==>
      (exists x :: x in init && Listed(x) && EntryKey(x) == k) || (Listed(e) && EntryKey(e) == k)
  {
    var init := es[..|es| - 1];
    var e := es[|es| - 1];
    assert es == init + [e];
    if exists x :: x in es && Listed(x) && EntryKey(x) == k {
      var x :| x in es && Listed(x) && EntryKey(x) == k;
      assert x in init || x == e;
    }
  }

  /** A listed entry is stored with its own title when no later listed entry has its key. */
  lemma {:induction false} MetaItemsTitle(es: seq<Entry>, title: Entry -> string, i: nat)
    requires i < |es| && Listed(es[i])
    requires forall j :: i < j < |es| && Listed(es[j]) ==> EntryKey(es[j]) != EntryKey(es[i])
    ensures EntryKey(es[i]) in Keys(MetaItems(es, title)) && Get(MetaItems(es, title), EntryKey(es[i])) == title(es[i])
    decreases |es|
  {
    var init := es[..|es| - 1];
    var e := es[|es| - 1];
    var k := EntryKey(es[i]);
    if i == |es| - 1 {
      GetIs(MetaItems(es, title), k, title(e));
    } else {
      assert init[i] == es[i];
      MetaItemsTitle(init, title, i);
      var m := MetaItems(init, title);
      var v := Get(m, k);
      assert (k, v) in m;
      if Listed(e) {
        var j :| 0 <= j < |m| && m[j] == (k, v);
        assert MetaItems(es, title)[j] == (k, v);
      }
      GetIs(MetaItems(es, title), k, v);
    }
  }

  /**
   * `generate_meta_for_dir`: `None` when `_meta.json` already exists or
   * nothing is listed, otherwise the dictionary written to it, built from
   * the entries in name order.
   */
  method GenerateMetaForDir(metaExists: bool, entries: seq<Entry>) returns (meta: Option<seq<(string, string)>>)
    ensures metaExists ==> meta.None?
    ensures !metaExists ==> meta == (var items := MetaItems(SortByName(entries, EntryName), EntryTitle); if items == [] then None else Some(items))
  {
    if metaExists {
      return None;
    }
    var sorted := SortByName(entries, EntryName);
    var items: seq<(string, string)> := [];
    for i := 0 to |sorted|
      invariant items == MetaItems(sorted[..i], EntryTitle)
    {
      var e := sorted[i];
      MetaItemsStep(sorted, EntryTitle, i);
      if Listed(e) {
        items := Put(items, EntryKey(e), EntryTitle(e));
      }
    }
    assert sorted[..|sorted|] == sorted;
    meta := if items == [] then None else Some(items);
  }

  /** A `_meta.json` is written exactly when some entry is listed. */
  lemma MetaWritten(entries: seq<Entry>)
    ensures MetaItems(SortByName(entries, EntryName), EntryTitle) != [] <==> exists e :: e in entries && Listed(e)
  {
    var sorted := SortByName(entries, EntryName);
    assert forall e :: e in sorted <==> e in entries by {
      forall e ensures e in sorted <==> e in entries {
        assert e in sorted <==> e in multiset(sorted);
      }
    }
    var items := MetaItems(sorted, EntryTitle);
    if exists e :: e in entries && Listed(e) {
      var e :| e in entries && Listed(e);
      MetaItemsKeys(sorted, EntryTitle, EntryKey(e));
    }
    if items != [] {
      assert Keys(items)[0] == items[0].0;
      MetaItemsKeys(sorted, EntryTitle, items[0].0);
    }
  }
}
