/**
 * Left-to-right rewriting as `re.sub` and `str.replace` perform it: at each
 * position the pattern is tried; a match is replaced and scanning resumes
 * after it, otherwise the character is copied and scanning moves one
 * position on. Replaced text is never scanned again. A pattern is given as a
 * matcher that sees the whole string and the position, so that look-behind
 * such as `\b` can be expressed.
 */
module Rewrite {
  import opened Options
  import opened Text

  /** A match at some position: how many characters it consumes and the text that replaces them. */
  datatype Match = Match(len: nat, replacement: string)

  /** The matcher matches at `i`, consuming at least one character. */
  predicate Fires(s: string, i: nat, m: (string, nat) -> Option<Match>)
  {
    i < |s| && m(s, i).Some? && 0 < m(s, i).value.len <= |s| - i
  }

  function SubFrom(s: string, i: nat, m: (string, nat) -> Option<Match>): string
    requires i <= |s|
    decreases |s| - i
  {
    if i == |s| then []
    else if Fires(s, i, m) then m(s, i).value.replacement + SubFrom(s, i + m(s, i).value.len, m)
    else [s[i]] + SubFrom(s, i + 1, m)
  }

  /** `re.sub(pattern, repl, s)`. */
  function Sub(s: string, m: (string, nat) -> Option<Match>): string
  {
    SubFrom(s, 0, m)
  }

  /** Positions where the matcher cannot fire are copied unchanged. */
  lemma {:induction false} SubPrefix(s: string, i: nat, k: nat, m: (string, nat) -> Option<Match>)
    requires i <= k <= |s|
    requires forall j :: i <= j < k ==> !Fires(s, j, m)
    ensures SubFrom(s, i, m) == s[i..k] + SubFrom(s, k, m)
    decreases k - i
  {
    if i < k {
      assert !Fires(s, i, m);
      SubPrefix(s, i + 1, k, m);
      calc {
        SubFrom(s, i, m);
        [s[i]] + SubFrom(s, i + 1, m);
        [s[i]] + (s[i + 1..k] + SubFrom(s, k, m));
        ([s[i]] + s[i + 1..k]) + SubFrom(s, k, m);
        { assert s[i..k] == [s[i]] + s[i + 1..k]; }
        s[i..k] + SubFrom(s, k, m);
      }
    }
  }

  /** A pattern that matches nowhere leaves the text as it is. */
  lemma SubNoMatch(s: string, m: (string, nat) -> Option<Match>)
    requires forall j :: 0 <= j < |s| ==> !Fires(s, j, m)
    ensures Sub(s, m) == s
  {
    SubPrefix(s, 0, |s|, m);
  }

  /** A rewrite whose every replacement is the matched text itself is the identity. */
  lemma {:induction false} SubSelf(s: string, i: nat, m: (string, nat) -> Option<Match>)
    requires i <= |s|
    requires forall j :: i <= j < |s| ==> SelfAt(s, j, m)
    ensures SubFrom(s, i, m) == s[i..]
    decreases |s| - i
  {
    if i < |s| {
      assert SelfAt(s, i, m);
      if Fires(s, i, m) {
        SubSelf(s, i + m(s, i).value.len, m);
        SelfFiredStep(s, i, m);
      } else {
        SubSelf(s, i + 1, m);
        SelfCopiedStep(s, i, m);
      }
    }
  }

  /** A match replaced by itself, in front of the rest of the text unchanged, leaves the text from `i` unchanged. */
  lemma SelfFiredStep(s: string, i: nat, m: (string, nat) -> Option<Match>)
    requires Fires(s, i, m) && SelfAt(s, i, m)
    requires SubFrom(s, i + m(s, i).value.len, m) == s[i + m(s, i).value.len..]
    ensures SubFrom(s, i, m) == s[i..]
  {
    var k := m(s, i).value.len;
    assert s[i..] == s[i..i + k] + s[i + k..];
  }

  /** A copied character in front of the rest of the text unchanged leaves the text from `i` unchanged. */
  lemma SelfCopiedStep(s: string, i: nat, m: (string, nat) -> Option<Match>)
    requires i < |s| && !Fires(s, i, m)
    requires SubFrom(s, i + 1, m) == s[i + 1..]
    ensures SubFrom(s, i, m) == s[i..]
  {
    assert s[i..] == [s[i]] + s[i + 1..];
  }

  /** Where the matcher fires at `j`, it replaces the matched text by itself. */
  predicate SelfAt(s: string, j: nat, m: (string, nat) -> Option<Match>)
  {
    Fires(s, j, m) ==> m(s, j).value.replacement == s[j..j + m(s, j).value.len]
  }

  /** A property of characters holds throughout the result when it holds of every copied character and of every replacement. */
  lemma {:induction false} SubKeeps(s: string, i: nat, m: (string, nat) -> Option<Match>, p: char -> bool)
    requires i <= |s|
    requires forall j :: i <= j < |s| && !Fires(s, j, m) ==> p(s[j])
    requires forall j, k :: i <= j < |s| && Fires(s, j, m) && 0 <= k < |m(s, j).value.replacement| ==> p(m(s, j).value.replacement[k])
    ensures forall k :: 0 <= k < |SubFrom(s, i, m)| ==> p(SubFrom(s, i, m)[k])
    decreases |s| - i
  {
    if i < |s| {
      if Fires(s, i, m) {
        SubKeeps(s, i + m(s, i).value.len, m, p);
      } else {
        SubKeeps(s, i + 1, m, p);
      }
    }
  }

  /** The matcher fires only at characters that satisfy `lead`. */
  ghost predicate LeadsWith(m: (string, nat) -> Option<Match>, lead: char -> bool)
  {
    forall s: string, j: nat :: Fires(s, j, m) ==> lead(s[j])
  }

  /** Wherever the matcher fires in `s`, it replaces the matched text by itself. */
  ghost predicate Inert(s: string, m: (string, nat) -> Option<Match>)
  {
    forall j :: 0 <= j < |s| && Fires(s, j, m) ==> m(s, j).value.replacement == s[j..j + m(s, j).value.len]
  }

  lemma LeadsWeaken(m: (string, nat) -> Option<Match>, p: char -> bool, q: char -> bool)
    requires LeadsWith(m, p) && forall c :: p(c) ==> q(c)
    ensures LeadsWith(m, q)
  {
    forall s: string, j: nat | Fires(s, j, m)
      ensures q(s[j])
    {
      assert p(s[j]);
    }
  }

  /** A matcher that fires only at characters the text does not hold is inert on it. */
  lemma LeadsInert(s: string, m: (string, nat) -> Option<Match>, lead: char -> bool)
    requires LeadsWith(m, lead) && forall j :: 0 <= j < |s| ==> !lead(s[j])
    ensures Inert(s, m)
  {
    forall j | 0 <= j < |s|
      ensures !Fires(s, j, m)
    {
      assert !lead(s[j]);
    }
  }

  /** Text before the first character the matcher could fire at comes through unchanged. */
  lemma SubKeepsPrefix(s: string, m: (string, nat) -> Option<Match>, lead: char -> bool, k: nat)
    requires k <= |s| && forall j :: 0 <= j < k ==> !lead(s[j])
    requires LeadsWith(m, lead)
    ensures k <= |Sub(s, m)| && Sub(s, m)[..k] == s[..k]
    ensures forall j :: 0 <= j < k ==> !lead(Sub(s, m)[j])
  {
    SubPrefix(s, 0, k, m);
    assert Sub(s, m) == s[..k] + SubFrom(s, k, m);
  }

  /** An inert rewrite leaves the text as it is. */
  lemma InertSub(s: string, m: (string, nat) -> Option<Match>)
    requires Inert(s, m)
    ensures Sub(s, m) == s
  {
    forall j | 0 <= j < |s|
      ensures SelfAt(s, j, m)
    {
    }
    SubSelf(s, 0, m);
    assert s[0..] == s;
  }

  /** Every replacement is shorter than what it replaces. */
  predicate Shrinks(s: string, m: (string, nat) -> Option<Match>)
  {
    forall j :: 0 <= j < |s| && Fires(s, j, m) ==> |m(s, j).value.replacement| < m(s, j).value.len
  }

  /** A shrinking rewrite never lengthens the text. */
  lemma {:induction false} SubNoLonger(s: string, i: nat, m: (string, nat) -> Option<Match>)
    requires i <= |s| && Shrinks(s, m)
    ensures |SubFrom(s, i, m)| <= |s| - i
    decreases |s| - i
  {
    if i < |s| {
      if Fires(s, i, m) {
        var k := m(s, i).value.len;
        assert |m(s, i).value.replacement| < k;
        SubNoLonger(s, i + k, m);
      } else {
        SubNoLonger(s, i + 1, m);
      }
    }
  }

  /** ... and shortens it as soon as the pattern matches at some position not yet passed. */
  lemma {:induction false} SubShorter(s: string, i: nat, p: nat, m: (string, nat) -> Option<Match>)
    requires i <= p < |s| && Fires(s, p, m) && Shrinks(s, m)
    ensures |SubFrom(s, i, m)| < |s| - i
    decreases |s| - i
  {
    if Fires(s, i, m) {
      assert |m(s, i).value.replacement| < m(s, i).value.len;
      SubNoLonger(s, i + m(s, i).value.len, m);
      ShorterFiredStep(s, i, m);
    } else {
      assert i < p;
      SubShorter(s, i + 1, p, m);
      ShorterCopiedStep(s, i, m);
    }
  }

  /** A shrinking match followed by output no longer than its input is shorter than the input. */
  lemma ShorterFiredStep(s: string, i: nat, m: (string, nat) -> Option<Match>)
    requires Fires(s, i, m) && |m(s, i).value.replacement| < m(s, i).value.len
    requires |SubFrom(s, i + m(s, i).value.len, m)| <= |s| - i - m(s, i).value.len
    ensures |SubFrom(s, i, m)| < |s| - i
  {
  }

  /** A copied character in front of output already shorter than its input keeps it shorter. */
  lemma ShorterCopiedStep(s: string, i: nat, m: (string, nat) -> Option<Match>)
    requires i < |s| && !Fires(s, i, m)
    requires |SubFrom(s, i + 1, m)| < |s| - i - 1
    ensures |SubFrom(s, i, m)| < |s| - i
  {
  }

  /** The matcher of a literal pattern (`str.replace(pat, rep)`, or `re.sub` on a pattern without metacharacters). */
  function Literal(pat: string, rep: string): (string, nat) -> Option<Match>
  {
    (s: string, i: nat) => if 0 < |pat| && i + |pat| <= |s| && s[i..i + |pat|] == pat then Some(Match(|pat|, rep)) else None
  }

  /** `s.replace(pat, rep)`: every non-overlapping occurrence, left to right, in one pass. */
  function ReplaceAll(s: string, pat: string, rep: string): string
  {
    Sub(s, Literal(pat, rep))
  }

  /** A literal replacement by something shorter changes the text exactly when the pattern occurs in it. */
  lemma ReplaceAllChanges(s: string, pat: string, rep: string)
    requires 0 < |pat| && |rep| < |pat|
    ensures ReplaceAll(s, pat, rep) != s <==> IsSubstring(pat, s)
  {
    var m := Literal(pat, rep);
    assert Shrinks(s, m);
    if IsSubstring(pat, s) {
      var p := SubstringWitness(pat, s);
      assert Fires(s, p, m);
      SubShorter(s, 0, p, m);
    } else {
      forall j | 0 <= j < |s| ensures !Fires(s, j, m) {
        if Fires(s, j, m) {
          SubstringAt(pat, s, j);
        }
      }
      SubNoMatch(s, m);
    }
  }
}
