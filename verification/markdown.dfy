/**
 * The line-anchored captures the scripts search Markdown with
 * (`re.search(r'^#\s+(.+)$', s, re.MULTILINE)` and
 * `re.search(r'^title:\s*(.+)$', s, re.MULTILINE)`), and the parts of a
 * file name that `pathlib` gives (`stem`, `suffix`).
 */
module Markdown {
  import opened Options
  import opened Text

  /** `^` under MULTILINE: the start of the text or just after a newline. */
  predicate LineStart(s: string, i: nat)
  {
    i <= |s| && (i == 0 || s[i - 1] == '\n')
  }

  /** End of the run of whitespace starting at `i` (`\s*` taken greedily; it crosses newlines). */
  function WsEnd(s: string, i: nat): (r: nat)
    requires i <= |s|
    ensures i <= r <= |s|
    ensures forall j :: i <= j < r ==> IsSpace(s[j])
    ensures r < |s| ==> !IsSpace(s[r])
    decreases |s| - i
  {
    if i < |s| && IsSpace(s[i]) then WsEnd(s, i + 1) else i
  }

  /** End of the line that contains `i` (`.+` taken greedily, stopping before a newline; `$` matches there). */
  function LineEnd(s: string, i: nat): (r: nat)
    requires i <= |s|
    ensures i <= r <= |s|
    ensures forall j :: i <= j < r ==> s[j] != '\n'
    ensures r < |s| ==> s[r] == '\n'
    decreases |s| - i
  {
    if i < |s| && s[i] != '\n' then LineEnd(s, i + 1) else i
  }

  /**
   * The capture group of `^<prefix>\s{minWs,}(.+)$` tried at position `i`.
   * The whitespace run is taken whole; the group is the rest of the line
   * after it. A line whose whitespace run reaches the end of the text does
   * not match here.
   */
  function CaptureAt(s: string, i: nat, prefix: string, minWs: nat): (r: Option<string>)
    requires i <= |s|
    ensures r.Some? ==> r.value != [] && !IsSpace(r.value[0]) && forall j :: 0 <= j < |r.value| ==> r.value[j] != '\n'
  {
    if LineStart(s, i) && i + |prefix| <= |s| && s[i..i + |prefix|] == prefix then
      var w := WsEnd(s, i + |prefix|);
      if w - (i + |prefix|) >= minWs && w < |s| then Some(s[w..LineEnd(s, w)]) else None
    else None
  }

  /** The first position from `i` on where the capture succeeds (`re.search`). */
  function FindCapture(s: string, i: nat, prefix: string, minWs: nat): (r: Option<string>)
    requires i <= |s|
    ensures r.Some? ==> r.value != [] && !IsSpace(r.value[0]) && forall j :: 0 <= j < |r.value| ==> r.value[j] != '\n'
    ensures r.None? ==> forall j :: i <= j <= |s| ==> CaptureAt(s, j, prefix, minWs).None?
    ensures r.Some? ==> exists j :: i <= j <= |s| && CaptureAt(s, j, prefix, minWs) == r
    decreases |s| - i
  {
    var c := CaptureAt(s, i, prefix, minWs);
    if c.Some? then c else if i == |s| then None else FindCapture(s, i + 1, prefix, minWs)
  }

  /** The text of the first `# ` heading: `re.search(r'^#\s+(.+)$', s, re.MULTILINE).group(1)`. */
  function FirstHeading(s: string): (r: Option<string>)
    ensures r.Some? ==> r.value != [] && !IsSpace(r.value[0]) && forall j :: 0 <= j < |r.value| ==> r.value[j] != '\n'
  {
    FindCapture(s, 0, "#", 1)
  }

  /** The index of the last occurrence of `c` (`str.rfind`). */
  function LastIndexOf(s: string, c: char): (r: Option<nat>)
    ensures r.Some? ==> r.value < |s| && s[r.value] == c && forall j :: r.value < j < |s| ==> s[j] != c
    ensures r.None? ==> forall j :: 0 <= j < |s| ==> s[j] != c
  {
    if s == [] then None
    else if s[|s| - 1] == c then Some(|s| - 1)
    else LastIndexOf(s[..|s| - 1], c)
  }

  /** Where `pathlib` splits a name into stem and suffix: the last dot, when it is neither first nor last. */
  function SuffixDot(name: string): (r: Option<nat>)
    ensures r.Some? ==> 0 < r.value < |name| - 1 && name[r.value] == '.'
  {
    var d := LastIndexOf(name, '.');
    if d.Some? && 0 < d.value < |name| - 1 then d else None
  }

  /** `Path(name).stem`. */
  function Stem(name: string): (r: string)
    ensures r <= name
  {
    match SuffixDot(name)
    case Some(d) => name[..d]
    case None => name
  }

  /** `Path(name).suffix`. */
  function Suffix(name: string): (r: string)
    ensures Stem(name) + r == name
  {
    match SuffixDot(name)
    case Some(d) => name[d..]
    case None => []
  }

  /** Adding an extension to a non-empty name and taking the stem gives the name back. */
  lemma StemOfExtension(s: string, ext: string)
    requires s != [] && ext != [] && forall j :: 0 <= j < |ext| ==> ext[j] != '.'
    ensures Stem(s + "." + ext) == s && Suffix(s + "." + ext) == "." + ext
  {
    var n := s + "." + ext;
    assert n[|s|] == '.';
    assert forall j :: |s| < j < |n| ==> n[j] != '.' by {
      forall j | |s| < j < |n| ensures n[j] != '.' { assert n[j] == ext[j - |s| - 1]; }
    }
    LastIndexOfIs(n, '.', |s|);
    assert SuffixDot(n) == Some(|s|);
    assert n[..|s|] == s;
    assert n[|s|..] == "." + ext;
  }

  lemma {:induction false} LastIndexOfIs(s: string, c: char, k: nat)
    requires k < |s| && s[k] == c && forall j :: k < j < |s| ==> s[j] != c
    ensures LastIndexOf(s, c) == Some(k)
    decreases |s|
  {
    if |s| - 1 != k {
      assert s[..|s| - 1][k] == c;
      LastIndexOfIs(s[..|s| - 1], c, k);
    }
  }
}
