/** The Python string operations the catalog's commands rely on:
    `str.strip()`, `str.lower()`, the substring test `q in s` and `str.replace`. */
module Text {

  /** Python's `str.isspace()` for a single character. */
  predicate IsSpace(c: char) {
    || c == ' '
    || ('\t' <= c <= '\r')
    || ('\U{1C}' <= c <= '\U{1F}')
    || c == '\U{85}' || c == '\U{A0}' || c == '\U{1680}'
    || ('\U{2000}' <= c <= '\U{200A}')
    || c == '\U{2028}' || c == '\U{2029}' || c == '\U{202F}' || c == '\U{205F}' || c == '\U{3000}'
  }

  /** Length of the run of whitespace at the front of `s`. */
  function LeadingSpaces(s: string): (k: nat)
    ensures k <= |s|
    ensures forall i :: 0 <= i < k ==> IsSpace(s[i])
    ensures k < |s| ==> !IsSpace(s[k])
  {
    if s != [] && IsSpace(s[0]) then 1 + LeadingSpaces(s[1..]) else 0
  }

  /** Index just past the last character of `s` that is not whitespace (0 if there is none). */
  function ContentEnd(s: string): (k: nat)
    ensures k <= |s|
    ensures forall i :: k <= i < |s| ==> IsSpace(s[i])
    ensures k > 0 ==> !IsSpace(s[k - 1])
  {
    if s != [] && IsSpace(s[|s| - 1]) then ContentEnd(s[..|s| - 1]) else |s|
  }

  /** Python's `s.strip()`: `s` without its leading and trailing whitespace. */
  function Strip(s: string): (r: string)
    ensures r == [] <==> forall i :: 0 <= i < |s| ==> IsSpace(s[i])
    ensures r != [] ==> !IsSpace(r[0]) && !IsSpace(r[|r| - 1])
    ensures |r| <= |s|
    ensures exists a, b ::
      && 0 <= a <= b <= |s| && r == s[a..b]
      && (forall i :: 0 <= i < a ==> IsSpace(s[i]))
      && (forall i :: b <= i < |s| ==> IsSpace(s[i]))
  {
    var a, b := LeadingSpaces(s), ContentEnd(s);
    if a < b then
      s[a..b]
    else
      assert a == |s|;
      assert s[a..a] == [];
      []
  }

  /** The test `s.strip() == ""` used to reject an empty movie name. */
  predicate IsBlank(s: string) {
    Strip(s) == []
  }

  /** A string that neither starts nor ends with whitespace is its own strip. */
  lemma StripUntrimmed(s: string)
    requires s != [] && !IsSpace(s[0]) && !IsSpace(s[|s| - 1])
    ensures Strip(s) == s
  {
    assert LeadingSpaces(s) == 0;
    assert ContentEnd(s) == |s|;
  }

  /** Python's `str.lower()` on one character: ASCII and Latin-1 capitals. */
  function LowerChar(c: char): char {
    if 'A' <= c <= 'Z' || ('\U{C0}' <= c <= '\U{DE}' && c != '\U{D7}') then
      (c as int + 32) as char
    else
      c
  }

  /** Python's `s.lower()`, character by character. */
  function Lower(s: string): (r: string)
    ensures |r| == |s|
  {
    seq(|s|, i requires 0 <= i < |s| => LowerChar(s[i]))
  }

  /** Lower-casing twice changes nothing more, so lowering the query and the
      titles makes the search insensitive to case on both sides. */
  lemma LowerIdempotent(s: string)
    ensures Lower(Lower(s)) == Lower(s)
  {
  }

  /** `q` occurs in `s` starting at position `i`. */
  ghost predicate OccursAt(s: string, q: string, i: nat) {
    i + |q| <= |s| && s[i..i + |q|] == q
  }

  lemma OccursShift(s: string, q: string)
    requires s != []
    ensures forall i: nat :: OccursAt(s[1..], q, i) <==> OccursAt(s, q, i + 1)
  {
    forall i: nat
      ensures OccursAt(s[1..], q, i) <==> OccursAt(s, q, i + 1)
    {
      if i + |q| <= |s| - 1 {
        assert s[1..][i..i + |q|] == s[i + 1..i + 1 + |q|];
      }
    }
  }

  /** Python's substring test `q in s`. */
  function Contains(s: string, q: string): (r: bool)
    ensures r <==> exists i: nat :: OccursAt(s, q, i)
    decreases |s|
  {
    if |q| > |s| then
      false
    else if s[..|q|] == q then
      assert OccursAt(s, q, 0);
      true
    else
      var r := Contains(s[1..], q);
      OccursShift(s, q);
      assert forall i: nat :: OccursAt(s, q, i) ==> i > 0 && OccursAt(s[1..], q, i - 1);
      r
  }

  /** Text found in a piece is found in any string that has that piece inside it. */
  lemma ContainsWithin(pre: string, s: string, post: string, q: string)
    requires Contains(s, q)
    ensures Contains(pre + s + post, q)
  {
    var i: nat :| OccursAt(s, q, i);
    var w := pre + s + post;
    assert w[|pre| + i..|pre| + i + |q|] == s[i..i + |q|];
    assert OccursAt(w, q, |pre| + i);
  }

  /** Python's `s.replace(pat, rep)`: every non-overlapping occurrence of `pat`,
      scanning from the left, is replaced by `rep`. */
  function ReplaceAll(s: string, pat: string, rep: string): (r: string)
    requires pat != []
    ensures (forall i: nat :: !OccursAt(s, pat, i)) ==> r == s
    decreases |s|
  {
    if |s| < |pat| then
      s
    else if s[..|pat|] == pat then
      assert OccursAt(s, pat, 0);
      rep + ReplaceAll(s[|pat|..], pat, rep)
    else
      OccursShift(s, pat);
      [s[0]] + ReplaceAll(s[1..], pat, rep)
  }

  /** Where no occurrence of `pat` starts at the front, the first character is copied. */
  lemma ReplaceStep(s: string, pat: string, rep: string)
    requires pat != [] && s != [] && !OccursAt(s, pat, 0)
    ensures ReplaceAll(s, pat, rep) == [s[0]] + ReplaceAll(s[1..], pat, rep)
  {
    if |s| >= |pat| {
      assert s[..|pat|] != pat;
    }
  }

  /** A prefix in which no occurrence of `pat` starts is copied unchanged. */
  lemma {:induction false} ReplaceSkips(s: string, pat: string, rep: string, k: nat)
    requires pat != [] && k <= |s|
    requires forall i: nat :: i < k ==> !OccursAt(s, pat, i)
    ensures ReplaceAll(s, pat, rep) == s[..k] + ReplaceAll(s[k..], pat, rep)
    decreases k
  {
    if k > 0 {
      NoneBeforeShift(s, pat, k);
      ReplaceSkips(s[1..], pat, rep, k - 1);
      ReplaceSkipsStep(s, pat, rep, k);
    }
  }

  lemma NoneBeforeShift(s: string, pat: string, k: nat)
    requires 0 < k <= |s|
    requires forall i: nat :: i < k ==> !OccursAt(s, pat, i)
    ensures forall i: nat :: i < k - 1 ==> !OccursAt(s[1..], pat, i)
  {
    OccursShift(s, pat);
  }

  lemma ReplaceSkipsStep(s: string, pat: string, rep: string, k: nat)
    requires pat != [] && 0 < k <= |s| && !OccursAt(s, pat, 0)
    requires ReplaceAll(s[1..], pat, rep) == s[1..][..k - 1] + ReplaceAll(s[1..][k - 1..], pat, rep)
    ensures ReplaceAll(s, pat, rep) == s[..k] + ReplaceAll(s[k..], pat, rep)
  {
    ReplaceStep(s, pat, rep);
    assert s[1..][k - 1..] == s[k..];
    PrependSplit(s, k, ReplaceAll(s[1..], pat, rep), ReplaceAll(s[k..], pat, rep));
  }

  lemma PrependSplit(s: string, k: nat, x: string, y: string)
    requires 0 < k <= |s| && x == s[1..][..k - 1] + y
    ensures [s[0]] + x == s[..k] + y
  {
    assert [s[0]] + s[1..][..k - 1] == s[..k];
  }

  /** A template whose only occurrence of `pat` is the one after `pre` becomes
      `pre + rep + post`: the placeholder is replaced by the grid and nothing else changes. */
  lemma ReplaceSingle(pre: string, pat: string, post: string, rep: string)
    requires pat != []
    requires forall i: nat :: i < |pre| ==> !OccursAt(pre + pat + post, pat, i)
    requires forall i: nat :: !OccursAt(post, pat, i)
    ensures ReplaceAll(pre + pat + post, pat, rep) == pre + rep + post
  {
    var s := pre + pat + post;
    ReplaceSkips(s, pat, rep, |pre|);
    assert s[..|pre|] == pre;
    var t := s[|pre|..];
    assert t == pat + post;
    assert t[..|pat|] == pat;
    assert t[|pat|..] == post;
  }
}
