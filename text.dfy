/**
 * The few string operations the automation relies on, on ASCII text:
 * case mapping, Python's `in` on strings, prefix and suffix tests,
 * `str.replace` and `str.title`.
 */
module Text {

  predicate IsUpper(c: char) { 'A' <= c <= 'Z' }
  predicate IsLower(c: char) { 'a' <= c <= 'z' }
  /** A cased character in the sense of `str.title`, restricted to ASCII. */
  predicate IsLetter(c: char) { IsUpper(c) || IsLower(c) }

  function Lower(c: char): char { if IsUpper(c) then (c as int + 32) as char else c }
  function Upper(c: char): char { if IsLower(c) then (c as int - 32) as char else c }

  /** `s.lower()` */
  function ToLower(s: string): string {
    seq(|s|, i requires 0 <= i < |s| => Lower(s[i]))
  }

  /** `pat` occurs in `s` starting at index `i`. */
  predicate OccursAt(s: string, pat: string, i: int) {
    0 <= i && i + |pat| <= |s| && s[i..i + |pat|] == pat
  }

  /** `pat` occurs somewhere in `s`. */
  ghost predicate Occurs(s: string, pat: string) {
    exists i :: OccursAt(s, pat, i)
  }

  /** An occurrence in `s[1..]` is an occurrence in `s` one position further on. */
  lemma OccursShift(s: string, pat: string)
    requires |s| > 0
    ensures forall i :: 0 <= i ==> (OccursAt(s[1..], pat, i) <==> OccursAt(s, pat, i + 1))
  {
    forall i | 0 <= i ensures OccursAt(s[1..], pat, i) <==> OccursAt(s, pat, i + 1) {
      if i + |pat| <= |s| - 1 {
        assert s[1..][i..i + |pat|] == s[i + 1..i + 1 + |pat|];
      }
    }
  }

  /** Without an occurrence at the front, `pat` occurs in `s` exactly when it occurs in `s[1..]`. */
  lemma OccursStep(s: string, pat: string)
    requires |s| > 0 && !OccursAt(s, pat, 0)
    ensures Occurs(s, pat) <==> Occurs(s[1..], pat)
  {
    OccursShift(s, pat);
    if Occurs(s, pat) {
      var i :| OccursAt(s, pat, i);
      assert OccursAt(s[1..], pat, i - 1);
    }
    if Occurs(s[1..], pat) {
      var j :| OccursAt(s[1..], pat, j);
      assert OccursAt(s, pat, j + 1);
    }
  }

  /** `pat in s`, scanning left to right. */
  function Contains(s: string, pat: string): (b: bool)
    ensures b <==> Occurs(s, pat)
    decreases |s|
  {
    if OccursAt(s, pat, 0) then true
    else if |s| == 0 then false
    else
      OccursStep(s, pat);
      Contains(s[1..], pat)
  }

  /** `s.startswith(p)` */
  predicate StartsWith(s: string, p: string) { |p| <= |s| && s[..|p|] == p }

  /** `s.endswith(p)` */
  predicate EndsWith(s: string, p: string) { |p| <= |s| && s[|s| - |p|..] == p }

  /**
   * `s.replace(pat, rep)`: every occurrence of `pat`, found left to right
   * without overlap, is replaced by `rep`. The automation only ever replaces
   * a non-empty pattern.
   */
  function ReplaceAll(s: string, pat: string, rep: string): string
    requires |pat| > 0
    decreases |s|
  {
    if |s| < |pat| then s
    else if s[..|pat|] == pat then rep + ReplaceAll(s[|pat|..], pat, rep)
    else [s[0]] + ReplaceAll(s[1..], pat, rep)
  }

  /** Replacing a pattern that does not occur leaves the string as it is. */
  lemma {:induction false} ReplaceAbsent(s: string, pat: string, rep: string)
    requires |pat| > 0 && !Contains(s, pat)
    ensures ReplaceAll(s, pat, rep) == s
    decreases |s|
  {
    if |s| >= |pat| {
      assert !OccursAt(s, pat, 0);
      OccursStep(s, pat);
      ReplaceAbsent(s[1..], pat, rep);
    }
  }

  /**
   * Removing a pattern that occurs in `p + pat` only at its end yields `p`:
   * in that case replacing every occurrence is the same as stripping the suffix.
   */
  lemma {:induction false} RemoveSoleSuffix(p: string, pat: string)
    requires |pat| > 0
    requires forall i :: 0 <= i < |p| ==> !OccursAt(p + pat, pat, i)
    ensures ReplaceAll(p + pat, pat, "") == p
    decreases |p|
  {
    var s := p + pat;
    if p == [] {
      assert s[..|pat|] == pat;
      assert s[|pat|..] == [];
    } else {
      assert !OccursAt(s, pat, 0);
      assert s[..|pat|] != pat;
      assert s[1..] == p[1..] + pat;
      OccursShift(s, pat);
      RemoveSoleSuffix(p[1..], pat);
    }
  }

  /** Replacing one character by another maps every position on its own. */
  lemma {:induction false} ReplaceCharAt(s: string, a: char, b: char)
    ensures |ReplaceAll(s, [a], [b])| == |s|
    ensures forall i :: 0 <= i < |s| ==>
      ReplaceAll(s, [a], [b])[i] == if s[i] == a then b else s[i]
    decreases |s|
  {
    if |s| > 0 {
      ReplaceCharAt(s[1..], a, b);
    }
  }

  /** How `str.title` maps one character, given whether the character before it is a letter. */
  function TitleChar(c: char, prevCased: bool): char {
    if !IsLetter(c) then c else if prevCased then Lower(c) else Upper(c)
  }

  /** `str.title` from a position: `prevCased` tells whether the previous character was a letter. */
  function TitleFrom(s: string, prevCased: bool): string
    decreases |s|
  {
    if s == [] then [] else [TitleChar(s[0], prevCased)] + TitleFrom(s[1..], IsLetter(s[0]))
  }

  /** `s.title()`: a letter is upper-cased when it starts a run of letters and lower-cased otherwise. */
  function Title(s: string): string { TitleFrom(s, false) }

  /** Character `i` of the title-cased string depends only on `s[i]` and on whether `s[i-1]` is a letter. */
  lemma {:induction false} TitleAt(s: string, prevCased: bool)
    ensures |TitleFrom(s, prevCased)| == |s|
    ensures forall i :: 0 <= i < |s| ==>
      TitleFrom(s, prevCased)[i] == TitleChar(s[i], if i == 0 then prevCased else IsLetter(s[i - 1]))
    decreases |s|
  {
    if s != [] {
      TitleAt(s[1..], IsLetter(s[0]));
    }
  }
}
