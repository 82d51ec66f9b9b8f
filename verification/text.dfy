/**
 * Character classes and small string functions shared by the content
 * scripts. Python's and JavaScript's Unicode-aware classes (`\w`, `\s`,
 * `str.lower`, `str.strip`, `String.prototype.trim`) are modelled over the
 * characters the content actually uses: ASCII exactly, other characters
 * through the ranges named below.
 */
module Text {
  import opened Options

  predicate IsDigit(c: char) { '0' <= c <= '9' }
  predicate IsUpper(c: char) { 'A' <= c <= 'Z' }
  predicate IsLower(c: char) { 'a' <= c <= 'z' }
  predicate IsLetter(c: char) { IsUpper(c) || IsLower(c) }

  /** Whitespace for `\s`, `str.strip()` and `trim()`: ASCII whitespace and the ideographic space. */
  predicate IsSpace(c: char) {
    c == ' ' || c == '\t' || c == '\n' || c == '\r' || c == '\U{000B}' || c == '\U{000C}' || c == '\U{3000}'
  }

  /** Non-ASCII punctuation blocks that `\w` does not match (Latin-1 signs, general and CJK punctuation, full-width signs). */
  predicate IsWidePunctuation(c: char) {
    var n := c as int;
    (0x80 <= n <= 0xBF) || (0x2000 <= n <= 0x206F) || (0x3000 <= n <= 0x303F) ||
    (0xFF00 <= n <= 0xFF0F) || (0xFF1A <= n <= 0xFF20) || (0xFF3B <= n <= 0xFF40) || (0xFF5B <= n <= 0xFF65)
  }

  /** Python's Unicode `\w`: ASCII letters, digits and `_`, and every other non-ASCII character outside the punctuation blocks. */
  predicate IsWordChar(c: char) {
    IsDigit(c) || IsLetter(c) || c == '_' || (c as int >= 0x80 && !IsWidePunctuation(c))
  }

  function LowerChar(c: char): (r: char)
    ensures !IsUpper(r)
    ensures IsWordChar(r) == IsWordChar(c)
  {
    if IsUpper(c) then (c as int + 32) as char else c
  }

  function UpperChar(c: char): (r: char)
    ensures !IsLower(r)
  {
    if IsLower(c) then (c as int - 32) as char else c
  }

  /** `str.lower()` on ASCII letters; every other character is kept. */
  function Lower(s: string): (r: string)
    ensures |r| == |s|
    ensures forall i :: 0 <= i < |s| ==> r[i] == LowerChar(s[i])
  {
    seq(|s|, i requires 0 <= i < |s| => LowerChar(s[i]))
  }

  /** Python's `sub in s` / JavaScript's `s.includes(sub)`. */
  predicate IsSubstring(sub: string, s: string)
    decreases |s|
  {
    sub <= s || (|s| > 0 && IsSubstring(sub, s[1..]))
  }

  lemma {:induction false} SubstringAt(sub: string, s: string, i: nat)
    requires i + |sub| <= |s| && s[i..i + |sub|] == sub
    ensures IsSubstring(sub, s)
    decreases i
  {
    if i > 0 {
      assert s[1..][i - 1..i - 1 + |sub|] == sub;
      SubstringAt(sub, s[1..], i - 1);
    }
  }

  lemma {:induction false} SubstringWitness(sub: string, s: string) returns (i: nat)
    requires IsSubstring(sub, s)
    ensures i + |sub| <= |s| && s[i..i + |sub|] == sub
    decreases |s|
  {
    if sub <= s {
      i := 0;
    } else {
      var j := SubstringWitness(sub, s[1..]);
      i := j + 1;
      assert s[i..i + |sub|] == s[1..][j..j + |sub|];
    }
  }

  /** A substring of a suffix is a substring of the whole string. */
  lemma SubstringOfSuffix(sub: string, s: string, k: nat)
    requires k <= |s| && IsSubstring(sub, s[k..])
    ensures IsSubstring(sub, s)
  {
    var j := SubstringWitness(sub, s[k..]);
    assert s[k + j..k + j + |sub|] == s[k..][j..j + |sub|];
    SubstringAt(sub, s, k + j);
  }

  /** `pat` occurs in `s` at position `j`. */
  predicate OccursAt(s: string, pat: string, j: nat)
  {
    j + |pat| <= |s| && s[j..j + |pat|] == pat
  }

  /** `s.find(pat, k)`: the first occurrence at or after `k` (a lazy `[\s\S]*?` followed by `pat`). */
  function IndexOfFrom(s: string, pat: string, k: nat): (r: Option<nat>)
    requires k <= |s|
    ensures r.Some? ==> k <= r.value && OccursAt(s, pat, r.value)
    ensures r.Some? ==> forall j :: k <= j < r.value ==> !OccursAt(s, pat, j)
    ensures r.None? ==> forall j :: k <= j <= |s| ==> !OccursAt(s, pat, j)
    decreases |s| - k
  {
    if OccursAt(s, pat, k) then Some(k)
    else if k < |s| then IndexOfFrom(s, pat, k + 1)
    else None
  }

  /** A slice is its two halves put together. */
  lemma SliceSplit(s: string, i: nat, k: nat, j: nat)
    requires i <= k <= j <= |s|
    ensures s[i..j] == s[i..k] + s[k..j]
  {
  }

  /** `lit` occurs in `s` at `i`, compared character by character. */
  predicate LitAt(s: string, i: nat, lit: string)
    decreases |lit|
  {
    lit == [] || (i < |s| && s[i] == lit[0] && LitAt(s, i + 1, lit[1..]))
  }

  lemma {:induction false} LitAtOccurs(s: string, i: nat, lit: string)
    requires i <= |s|
    ensures LitAt(s, i, lit) <==> OccursAt(s, lit, i)
    decreases |lit|
  {
    if lit != [] && i < |s| {
      LitAtOccurs(s, i + 1, lit[1..]);
      if i < |s| && i + |lit| <= |s| {
        assert s[i..i + |lit|] == [s[i]] + s[i + 1..i + 1 + |lit[1..]|];
        assert lit == [lit[0]] + lit[1..];
      }
    }
  }

  lemma EmptyOccurs(s: string, j: nat)
    requires j <= |s|
    ensures OccursAt(s, [], j)
  {
    assert s[j..j] == [];
  }

  /** The last occurrence of `pat` lying wholly inside `s[lo..hi]` (a greedy `.*` followed by `pat`). */
  function LastOccurrence(s: string, pat: string, lo: nat, hi: nat): (r: Option<nat>)
    requires lo <= hi <= |s|
    ensures r.Some? ==> lo <= r.value && r.value + |pat| <= hi && OccursAt(s, pat, r.value)
    ensures r.Some? ==> forall j :: r.value < j && j + |pat| <= hi ==> !OccursAt(s, pat, j)
    ensures r.None? ==> forall j :: lo <= j && j + |pat| <= hi ==> !OccursAt(s, pat, j)
    decreases hi - lo
  {
    if hi < lo + |pat| then None
    else if OccursAt(s, pat, hi - |pat|) then Some(hi - |pat|)
    else
      EmptyOccurs(s, hi);
      LastOccurrence(s, pat, lo, hi - 1)
  }

  /** Python's `str.strip(chars)`: drops the leading and trailing characters that `drop` selects. */
  function TrimLeft(s: string, drop: char -> bool): (r: string)
    ensures |r| <= |s| && r == s[|s| - |r|..]
    ensures r == [] || !drop(r[0])
    ensures forall i :: 0 <= i < |s| - |r| ==> drop(s[i])
    decreases |s|
  {
    if s != [] && drop(s[0]) then
      var r := TrimLeft(s[1..], drop);
      assert s[1..][|s| - 1 - |r|..] == s[|s| - |r|..];
      assert forall i :: 1 <= i < |s| ==> s[i] == s[1..][i - 1];
      r
    else s
  }

  function TrimRight(s: string, drop: char -> bool): (r: string)
    ensures |r| <= |s| && r == s[..|r|]
    ensures r == [] || !drop(r[|r| - 1])
    ensures forall i :: |r| <= i < |s| ==> drop(s[i])
    decreases |s|
  {
    if s != [] && drop(s[|s| - 1]) then TrimRight(s[..|s| - 1], drop) else s
  }

  /** `r` is `s[a..a + |r|]`, and every character of `s` before or after it is one `drop` selects. */
  predicate DroppedAround(s: string, r: string, a: nat, drop: char -> bool)
  {
    a + |r| <= |s| && r == s[a..a + |r|] &&
    (forall i :: 0 <= i < a ==> drop(s[i])) && (forall i :: a + |r| <= i < |s| ==> drop(s[i]))
  }

  function Trim(s: string, drop: char -> bool): (r: string)
    ensures r == [] || (!drop(r[0]) && !drop(r[|r| - 1]))
    ensures exists a :: DroppedAround(s, r, a, drop)
  {
    var l := TrimLeft(s, drop);
    var r := TrimRight(l, drop);
    DropBothEnds(s, l, r, drop);
    r
  }

  /** Dropping a prefix and then a suffix of selected characters leaves a slice with only selected characters around it. */
  lemma DropBothEnds(s: string, l: string, r: string, drop: char -> bool)
    requires |l| <= |s| && l == s[|s| - |l|..] && forall i :: 0 <= i < |s| - |l| ==> drop(s[i])
    requires |r| <= |l| && r == l[..|r|] && forall i :: |r| <= i < |l| ==> drop(l[i])
    ensures DroppedAround(s, r, |s| - |l|, drop)
  {
    var a := |s| - |l|;
    assert r == s[a..a + |r|];
    forall i | a + |r| <= i < |s| ensures drop(s[i]) {
      assert s[i] == l[i - a];
    }
  }

  /** What `Trim` keeps is a contiguous slice of its input. */
  lemma TrimSlice(s: string, drop: char -> bool) returns (a: nat)
    ensures a + |Trim(s, drop)| <= |s| && Trim(s, drop) == s[a..a + |Trim(s, drop)|]
  {
    var l := TrimLeft(s, drop);
    a := |s| - |l|;
    assert Trim(s, drop) == l[..|Trim(s, drop)|];
  }

  /** `r` is a run of consecutive characters of `s`. */
  predicate SliceOf(r: string, s: string)
  {
    exists a :: 0 <= a <= |s| && r <= s[a..]
  }

  /** `Trim` keeps a slice of its input. */
  lemma TrimIsSlice(s: string, drop: char -> bool)
    ensures SliceOf(Trim(s, drop), s)
  {
    var a := TrimSlice(s, drop);
    assert Trim(s, drop) <= s[a..];
  }

  /** A slice of a slice is a slice. */
  lemma SliceOfSlice(r: string, s: string, t: string)
    requires SliceOf(r, s) && SliceOf(s, t)
    ensures SliceOf(r, t)
  {
    var b :| 0 <= b <= |s| && r <= s[b..];
    var a :| 0 <= a <= |t| && s <= t[a..];
    forall j | 0 <= j < |r| ensures r[j] == t[a + b + j] {
      assert r[j] == s[b + j];
    }
    assert r <= t[a + b..];
  }

  /** Trimming adds no character that was not there. */
  lemma TrimKeepsOut(s: string, drop: char -> bool, c: char)
    requires c !in s
    ensures c !in Trim(s, drop)
  {
    var a := TrimSlice(s, drop);
    var t := Trim(s, drop);
    forall j | 0 <= j < |t|
      ensures t[j] != c
    {
      assert t[j] == s[a + j];
    }
  }

  /** Text whose ends are already kept is not trimmed. */
  lemma TrimmedAlready(s: string, drop: char -> bool)
    requires s == [] || (!drop(s[0]) && !drop(s[|s| - 1]))
    ensures Trim(s, drop) == s
  {
  }

  /** Python's `str.strip()` and JavaScript's `trim()`. */
  function Strip(s: string): (r: string)
    ensures r == [] || (!IsSpace(r[0]) && !IsSpace(r[|r| - 1]))
    ensures exists a :: DroppedAround(s, r, a, IsSpace)
  {
    Trim(s, IsSpace)
  }

  /** Every occurrence of `a` replaced by `b`, character by character (`str.replace` with one-character arguments). */
  function ReplaceChar(s: string, a: char, b: char): (r: string)
    ensures |r| == |s|
    ensures forall i :: 0 <= i < |s| ==> r[i] == (if s[i] == a then b else s[i])
  {
    seq(|s|, i requires 0 <= i < |s| => if s[i] == a then b else s[i])
  }

  function Count(s: string, c: char): nat
  {
    if s == [] then 0 else (if s[0] == c then 1 else 0) + Count(s[1..], c)
  }

  /** The end of the longest run of characters satisfying `p` that starts at `i` (a greedy `[...]*`). */
  function RunEnd(s: string, i: nat, p: char -> bool): (r: nat)
    requires i <= |s|
    ensures i <= r <= |s|
    ensures forall j :: i <= j < r ==> p(s[j])
    ensures r < |s| ==> !p(s[r])
    decreases |s| - i
  {
    if i < |s| && p(s[i]) then RunEnd(s, i + 1, p) else i
  }

  /** A run that ends where `p` first fails is the one `RunEnd` finds. */
  lemma RunEndIs(s: string, i: nat, p: char -> bool, e: nat)
    requires i <= e <= |s|
    requires forall j :: i <= j < e ==> p(s[j])
    requires e < |s| ==> !p(s[e])
    ensures RunEnd(s, i, p) == e
  {
  }

  /** A character of `str.title()`: upper-cased at the start of a word, lower-cased inside one. */
  function TitleChar(c: char, inWord: bool): char
  {
    if inWord then LowerChar(c) else UpperChar(c)
  }

  /** `str.title()` on ASCII letters: a letter is upper-cased when the character before it is not a letter, lower-cased otherwise. */
  function TitleCase(s: string): (r: string)
    ensures |r| == |s|
    ensures forall i :: 0 <= i < |s| ==> r[i] == TitleChar(s[i], i > 0 && IsLetter(s[i - 1]))
  {
    seq(|s|, i requires 0 <= i < |s| => TitleChar(s[i], i > 0 && IsLetter(s[i - 1])))
  }

  /** `s.split(c)` for a one-character separator, as Python and JavaScript define it. */
  function Split(s: string, c: char): (r: seq<string>)
    ensures |r| >= 1
    decreases |s|
  {
    if s == [] then [[]]
    else if s[0] == c then [[]] + Split(s[1..], c)
    else
      var rest := Split(s[1..], c);
      [[s[0]] + rest[0]] + rest[1..]
  }

  /** `sep.join(parts)`. */
  function Join(parts: seq<string>, sep: string): string
  {
    if parts == [] then [] else if |parts| == 1 then parts[0] else parts[0] + sep + Join(parts[1..], sep)
  }

  /** The string holds no line break. */
  predicate NoNewline(s: string) { forall i :: 0 <= i < |s| ==> s[i] != '\n' }

  predicate AllDigits(s: string) { forall i :: 0 <= i < |s| ==> IsDigit(s[i]) }

  /** `int(s)` for a string of decimal digits. */
  function DigitsValue(s: string): nat
    requires AllDigits(s)
  {
    if s == [] then 0 else DigitsValue(s[..|s| - 1]) * 10 + (s[|s| - 1] as int - '0' as int)
  }

  /** `str(n)`. */
  function NatToString(n: nat): (r: string)
    ensures |r| > 0 && AllDigits(r)
  {
    if n < 10 then [('0' as int + n) as char] else NatToString(n / 10) + [('0' as int + n % 10) as char]
  }

  /** Reading back the digits of `str(n)` gives `n`. */
  lemma {:induction false} NatToStringValue(n: nat)
    ensures DigitsValue(NatToString(n)) == n
  {
    if n >= 10 {
      NatToStringValue(n / 10);
      var s := NatToString(n);
      assert s[..|s| - 1] == NatToString(n / 10);
    }
  }

  /** `str(i)`: a minus sign for a negative number, then the digits of its magnitude. */
  function IntToString(i: int): (r: string)
    ensures r != [] && NoNewline(r)
    ensures i < 0 ==> r[0] == '-' && AllDigits(r[1..]) && DigitsValue(r[1..]) == -i
    ensures i >= 0 ==> AllDigits(r) && DigitsValue(r) == i
  {
    if i < 0 then
      NatToStringValue(-i);
      var r := "-" + NatToString(-i);
      assert r[1..] == NatToString(-i);
      r
    else
      NatToStringValue(i);
      NatToString(i)
  }

  /** `s.zfill(w)` for a string without a sign. */
  function ZFill(s: string, w: nat): (r: string)
    ensures |r| == if |s| >= w then |s| else w
    ensures s <= r[|r| - |s|..] && r[|r| - |s|..] == s
    ensures forall i :: 0 <= i < |r| - |s| ==> r[i] == '0'
  {
    if |s| >= w then s else seq(w - |s|, _ => '0') + s
  }
}
