/**
 * The two regular expressions the automation searches with `re.search`:
 * the router rule host pattern Host\(`([^`]+)`\) and the certificate
 * request's serial number pattern `Serial number: (\d+)`. Each returns the
 * first capture group of the leftmost match.
 */
module Patterns {
  import opened Wrappers
  import opened Text

  datatype Pattern =
    | HostRule      // Host\(`([^`]+)`\)
    | SerialNumber  // Serial number: (\d+)

  /** The literal text a match starts with, before the captured group. */
  function Opening(p: Pattern): string {
    match p
    case HostRule => "Host(`"
    case SerialNumber => "Serial number: "
  }

  predicate IsDigit(c: char) { '0' <= c <= '9' }
  predicate NotBacktick(c: char) { c != '`' }

  /** The characters the captured group is made of: [^`] or \d. */
  predicate InGroup(p: Pattern, c: char) {
    match p
    case HostRule => NotBacktick(c)
    case SerialNumber => IsDigit(c)
  }

  /** The end of the longest run of group characters starting at `j` (a greedy `+` or `*`). */
  function RunEnd(p: Pattern, s: string, j: nat): (k: nat)
    requires j <= |s|
    ensures j <= k <= |s|
    ensures forall m :: j <= m < k ==> InGroup(p, s[m])
    ensures k < |s| ==> !InGroup(p, s[k])
    decreases |s| - j
  {
    if j == |s| || !InGroup(p, s[j]) then j else RunEnd(p, s, j + 1)
  }

  /**
   * The capture of a match of `p` that starts exactly at index `i`, if any.
   * The group is greedy and cannot give characters back usefully: for the
   * host rule the character after the run is a backtick or the end of `s`,
   * so only the longest run can be followed by "`)".
   */
  function MatchAt(p: Pattern, s: string, i: nat): Option<string>
    requires i <= |s|
  {
    var start := i + |Opening(p)|;
    if !OccursAt(s, Opening(p), i) then None
    else
      var k := RunEnd(p, s, start);
      match p
      case HostRule =>
        if k > start && k + 1 < |s| && s[k + 1] == ')' then Some(s[start..k]) else None
      case SerialNumber =>
        if k > start then Some(s[start..k]) else None
  }

  /** `re.search(p, s[i..])` with positions kept relative to `s`: the leftmost match at or after `i`. */
  function SearchFrom(p: Pattern, s: string, i: nat): Option<string>
    requires i <= |s|
    decreases |s| - i
  {
    if MatchAt(p, s, i).Some? then MatchAt(p, s, i)
    else if i == |s| then None
    else SearchFrom(p, s, i + 1)
  }

  /** No match of `p` starts at an index in [i, j). */
  predicate NoMatchBetween(p: Pattern, s: string, i: nat, j: nat)
    requires j <= |s| + 1
  {
    forall m :: i <= m < j && m <= |s| ==> MatchAt(p, s, m).None?
  }

  /** The capture of a match at every start index 0..|s|. */
  function Matches(p: Pattern, s: string): (r: seq<Option<string>>)
    ensures |r| == |s| + 1
  {
    seq(|s| + 1, j requires 0 <= j <= |s| => MatchAt(p, s, j))
  }

  /** The first present element of `xs` at or after `i`. */
  function FirstSome(xs: seq<Option<string>>, i: nat): Option<string>
    requires i <= |xs|
    decreases |xs| - i
  {
    if i == |xs| then None else if xs[i].Some? then xs[i] else FirstSome(xs, i + 1)
  }

  lemma {:induction false} FirstSomeFound(xs: seq<Option<string>>, i: nat)
    requires i <= |xs| && FirstSome(xs, i).Some?
    ensures exists j :: i <= j < |xs| && xs[j] == FirstSome(xs, i) && forall m :: i <= m < j ==> xs[m].None?
    decreases |xs| - i
  {
    if xs[i].None? {
      FirstSomeFound(xs, i + 1);
    }
  }

  lemma {:induction false} FirstSomeNone(xs: seq<Option<string>>, i: nat)
    requires i <= |xs| && FirstSome(xs, i).None?
    ensures forall m :: i <= m < |xs| ==> xs[m].None?
    decreases |xs| - i
  {
    if i < |xs| {
      FirstSomeNone(xs, i + 1);
    }
  }

  /** Searching from `i` is taking the first match among the matches at `i`, `i + 1`, ... */
  lemma {:induction false} SearchFromFirst(p: Pattern, s: string, i: nat)
    requires i <= |s|
    ensures SearchFrom(p, s, i) == FirstSome(Matches(p, s), i)
    decreases |s| - i
  {
    assert Matches(p, s)[i] == MatchAt(p, s, i);
    if i < |s| {
      SearchFromFirst(p, s, i + 1);
    } else {
      assert FirstSome(Matches(p, s), i + 1) == None;
    }
  }

  /** A result of the search is the capture of a match with no match before it. */
  lemma SearchFromFound(p: Pattern, s: string, i: nat)
    requires i <= |s| && SearchFrom(p, s, i).Some?
    ensures exists j :: i <= j <= |s| && MatchAt(p, s, j) == SearchFrom(p, s, i) && NoMatchBetween(p, s, i, j)
  {
    var xs := Matches(p, s);
    SearchFromFirst(p, s, i);
    FirstSomeFound(xs, i);
    var j :| i <= j < |xs| && xs[j] == FirstSome(xs, i) && forall m :: i <= m < j ==> xs[m].None?;
    assert xs[j] == MatchAt(p, s, j);
    forall m | i <= m < j && m <= |s| ensures MatchAt(p, s, m).None? {
      assert xs[m] == MatchAt(p, s, m);
    }
  }

  /** No result means no match at or after `i`. */
  lemma SearchFromNone(p: Pattern, s: string, i: nat)
    requires i <= |s| && SearchFrom(p, s, i).None?
    ensures NoMatchBetween(p, s, i, |s| + 1)
  {
    var xs := Matches(p, s);
    SearchFromFirst(p, s, i);
    FirstSomeNone(xs, i);
    forall m | i <= m < |s| + 1 ensures MatchAt(p, s, m).None? {
      assert xs[m] == MatchAt(p, s, m);
    }
  }

  /** `re.search(p, s)`, returning the first group of the leftmost match. */
  function Search(p: Pattern, s: string): Option<string> {
    SearchFrom(p, s, 0)
  }

  /** Any slice of an occurrence is the same slice of the pattern. */
  lemma OccurrenceSlice(s: string, w: string, i: nat, a: nat, b: nat)
    requires OccursAt(s, w, i) && a <= b <= |w|
    ensures s[i + a..i + b] == w[a..b]
  {
    var u := s[i..i + |w|];
    forall m | 0 <= m < b - a ensures s[i + a..i + b][m] == u[a..b][m] {
      assert s[i + a..i + b][m] == s[i + a + m] == u[a + m];
    }
    assert s[i + a..i + b] == u[a..b];
  }

  /** The middle part of a three-part concatenation. */
  lemma SliceMiddle(x: string, t: string, y: string)
    ensures (x + t + y)[|x|..|x| + |t|] == t
    ensures (x + t + y)[..|x|] == x
    ensures (x + t + y)[|x| + |t|..] == y
  {
  }

  /** A host rule match at `i` is exactly an occurrence of "Host(`" + t + "`)" with a non-empty `t` free of backticks. */
  lemma HostMatchAt(s: string, i: nat, t: string)
    requires i <= |s|
    ensures MatchAt(HostRule, s, i) == Some(t) <==>
      |t| > 0 && (forall c :: c in t ==> NotBacktick(c)) && OccursAt(s, Opening(HostRule) + t + "`)", i)
  {
    if MatchAt(HostRule, s, i) == Some(t) {
      HostOccurrenceFromMatch(s, i, t);
    }
    if |t| > 0 && (forall c :: c in t ==> NotBacktick(c)) && OccursAt(s, Opening(HostRule) + t + "`)", i) {
      HostMatchFromOccurrence(s, i, t);
    }
  }

  lemma HostOccurrenceFromMatch(s: string, i: nat, t: string)
    requires i <= |s| && MatchAt(HostRule, s, i) == Some(t)
    ensures |t| > 0 && (forall c :: c in t ==> NotBacktick(c)) && OccursAt(s, Opening(HostRule) + t + "`)", i)
  {
    var o := Opening(HostRule);
    var k := RunEnd(HostRule, s, i + 6);
    assert t == s[i + 6..k];
    assert s[i..i + 6] == o;
    assert s[k..k + 2] == "`)";
    assert s[i..k + 2] == s[i..i + 6] + s[i + 6..k] + s[k..k + 2];
  }

  lemma HostMatchFromOccurrence(s: string, i: nat, t: string)
    requires i <= |s|
    requires |t| > 0 && (forall c :: c in t ==> NotBacktick(c)) && OccursAt(s, Opening(HostRule) + t + "`)", i)
    ensures MatchAt(HostRule, s, i) == Some(t)
  {
    var o := Opening(HostRule);
    var w := o + t + "`)";
    var start := i + 6;
    SliceMiddle(o, t, "`)");
    OccurrenceSlice(s, w, i, 0, 6);
    OccurrenceSlice(s, w, i, 6, 6 + |t|);
    OccurrenceSlice(s, w, i, 6 + |t|, |w|);
    assert OccursAt(s, o, i);
    forall m | start <= m < start + |t| ensures InGroup(HostRule, s[m]) {
      assert s[m] == s[start..start + |t|][m - start];
    }
    assert s[start + |t|] == s[start + |t|..i + |w|][0];
    assert s[start + |t| + 1] == s[start + |t|..i + |w|][1];
    var k := RunEnd(HostRule, s, start);
    assert k == start + |t|;
  }

  /** A serial number match at `i` is exactly the label followed by the longest non-empty run of digits. */
  lemma SerialMatchAt(s: string, i: nat, t: string)
    requires i <= |s|
    ensures MatchAt(SerialNumber, s, i) == Some(t) <==>
      |t| > 0 && (forall c :: c in t ==> IsDigit(c)) && OccursAt(s, Opening(SerialNumber) + t, i) &&
      (i + 15 + |t| < |s| ==> !IsDigit(s[i + 15 + |t|]))
  {
    if MatchAt(SerialNumber, s, i) == Some(t) {
      SerialOccurrenceFromMatch(s, i, t);
    }
    if |t| > 0 && (forall c :: c in t ==> IsDigit(c)) && OccursAt(s, Opening(SerialNumber) + t, i) &&
       (i + 15 + |t| < |s| ==> !IsDigit(s[i + 15 + |t|])) {
      SerialMatchFromOccurrence(s, i, t);
    }
  }

  lemma SerialOccurrenceFromMatch(s: string, i: nat, t: string)
    requires i <= |s| && MatchAt(SerialNumber, s, i) == Some(t)
    ensures |t| > 0 && (forall c :: c in t ==> IsDigit(c)) && OccursAt(s, Opening(SerialNumber) + t, i) &&
      (i + 15 + |t| < |s| ==> !IsDigit(s[i + 15 + |t|]))
  {
    var k := RunEnd(SerialNumber, s, i + 15);
    assert t == s[i + 15..k];
    assert s[i..i + 15] == Opening(SerialNumber);
    assert s[i..k] == s[i..i + 15] + s[i + 15..k];
  }

  lemma SerialMatchFromOccurrence(s: string, i: nat, t: string)
    requires i <= |s|
    requires |t| > 0 && (forall c :: c in t ==> IsDigit(c)) && OccursAt(s, Opening(SerialNumber) + t, i)
    requires i + 15 + |t| < |s| ==> !IsDigit(s[i + 15 + |t|])
    ensures MatchAt(SerialNumber, s, i) == Some(t)
  {
    var o := Opening(SerialNumber);
    var w := o + t;
    var start := i + 15;
    SliceMiddle(o, t, "");
    assert w == o + t + "";
    OccurrenceSlice(s, w, i, 0, 15);
    OccurrenceSlice(s, w, i, 15, |w|);
    assert OccursAt(s, o, i);
    forall m | start <= m < start + |t| ensures InGroup(SerialNumber, s[m]) {
      assert s[m] == s[start..start + |t|][m - start];
    }
    var k := RunEnd(SerialNumber, s, start);
    assert k == start + |t|;
  }
}
