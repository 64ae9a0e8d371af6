/** The few Python `str` operations the core relies on, over `seq<char>`:
    `replace` of one character, `replace(pat, "")`, `split(sep)`,
    `endswith` and `title`. Case mapping covers ASCII letters only. */
module Strings {

  // ---------------------------------------------------------------------
  // Characters
  // ---------------------------------------------------------------------

  predicate IsUpper(c: char) { 'A' <= c <= 'Z' }
  predicate IsLower(c: char) { 'a' <= c <= 'z' }

  /** A "cased" character in the sense of `str.title` (ASCII letters here). */
  predicate IsCased(c: char) { IsUpper(c) || IsLower(c) }

  function ToUpper(c: char): (u: char)
    ensures IsCased(u) == IsCased(c)
    ensures IsCased(c) ==> IsUpper(u)
  {
    if IsLower(c) then (c as int - 32) as char else c
  }

  function ToLower(c: char): (l: char)
    ensures IsCased(l) == IsCased(c)
    ensures IsCased(c) ==> IsLower(l)
  {
    if IsUpper(c) then (c as int + 32) as char else c
  }

  lemma CaseMappingsAbsorb(c: char)
    ensures ToUpper(ToUpper(c)) == ToUpper(c) && ToUpper(ToLower(c)) == ToUpper(c)
    ensures ToLower(ToLower(c)) == ToLower(c) && ToLower(ToUpper(c)) == ToLower(c)
  {
  }

  // ---------------------------------------------------------------------
  // s.replace(a, b) for single characters a and b
  // ---------------------------------------------------------------------

  /** Every occurrence of `a` becomes `b`; nothing else moves or changes. */
  function ReplaceChar(s: string, a: char, b: char): (r: string)
    ensures |r| == |s|
    ensures forall i :: 0 <= i < |s| ==> r[i] == (if s[i] == a then b else s[i])
  {
    if s == [] then [] else [if s[0] == a then b else s[0]] + ReplaceChar(s[1..], a, b)
  }

  lemma ReplaceCharRemovesAll(s: string, a: char, b: char)
    requires a != b
    ensures a !in ReplaceChar(s, a, b)
  {
    var r := ReplaceChar(s, a, b);
    forall i | 0 <= i < |r| ensures r[i] != a {
      assert r[i] == (if s[i] == a then b else s[i]);
    }
  }

  // ---------------------------------------------------------------------
  // s.replace(pat, "") for a non-empty pattern
  // ---------------------------------------------------------------------

  predicate StartsWith(s: string, prefix: string) {
    |prefix| <= |s| && s[..|prefix|] == prefix
  }

  predicate EndsWith(s: string, suffix: string) {
    |suffix| <= |s| && s[|s| - |suffix|..] == suffix
  }

  /** `s.endswith(t)` compares the last `|t|` characters of `s` with `t`, one
      by one; every text ends with the empty text. */
  lemma EndsWithChars(s: string, t: string)
    ensures EndsWith(s, t) <==> |t| <= |s| && forall k :: 0 <= k < |t| ==> s[|s| - |t| + k] == t[k]
    ensures EndsWith(s, [])
  {
    if |t| <= |s| && forall k :: 0 <= k < |t| ==> s[|s| - |t| + k] == t[k] {
      assert s[|s| - |t|..] == t;
    }
    assert s[|s|..] == [];
  }

  /** `pat` occurs in `s` starting at index `i`. */
  predicate OccursAt(s: string, pat: string, i: int) {
    0 <= i <= |s| - |pat| && s[i..i + |pat|] == pat
  }

  /** `pat` occurs somewhere in `s`. */
  ghost predicate Occurs(s: string, pat: string) {
    exists i :: OccursAt(s, pat, i)
  }

  /** Python's left-to-right, non-overlapping removal of every occurrence of
      `pat` (the call sites pass a non-empty literal). */
  function RemoveAll(s: string, pat: string): (r: string)
    requires pat != []
    ensures |r| <= |s|
    decreases |s|
  {
    if s == [] then []
    else if StartsWith(s, pat) then RemoveAll(s[|pat|..], pat)
    else [s[0]] + RemoveAll(s[1..], pat)
  }

  /** Without an occurrence of the pattern, removal leaves the text alone. */
  lemma {:induction false} RemoveAllWithoutOccurrence(s: string, pat: string)
    requires pat != [] && !Occurs(s, pat)
    ensures RemoveAll(s, pat) == s
    decreases |s|
  {
    if s != [] {
      assert !OccursAt(s, pat, 0);
      forall i | OccursAt(s[1..], pat, i) ensures OccursAt(s, pat, i + 1) {
        assert s[1..][i..i + |pat|] == s[i + 1..i + 1 + |pat|];
      }
      RemoveAllWithoutOccurrence(s[1..], pat);
    }
  }

  /** A text that lacks the pattern's first character lacks the pattern. */
  lemma NoOccurrenceWithoutFirstChar(s: string, pat: string)
    requires pat != [] && pat[0] !in s
    ensures !Occurs(s, pat)
  {
    forall i | 0 <= i <= |s| - |pat| ensures !OccursAt(s, pat, i) {
      assert s[i..i + |pat|][0] == s[i];
    }
  }

  /** A leading occurrence is removed and the scan goes on right after it. */
  lemma RemoveAllLeading(pat: string, t: string)
    requires pat != []
    ensures RemoveAll(pat + t, pat) == RemoveAll(t, pat)
  {
    assert (pat + t)[..|pat|] == pat;
    assert (pat + t)[|pat|..] == t;
  }

  // ---------------------------------------------------------------------
  // s.split(sep) and its inverse, sep.join(parts)
  // ---------------------------------------------------------------------

  /** Index of the first `c` at or after `k`, or `|s|` when there is none. */
  function IndexFrom(s: string, c: char, k: nat): (i: nat)
    requires k <= |s|
    ensures k <= i <= |s|
    ensures forall j :: k <= j < i ==> s[j] != c
    ensures i < |s| ==> s[i] == c
    decreases |s| - k
  {
    if k == |s| then k
    else if s[k] == c then k
    else IndexFrom(s, c, k + 1)
  }

  /** Index of the first `c` in `s`, or `|s|` when there is none. */
  function IndexOf(s: string, c: char): (i: nat)
    ensures i <= |s|
    ensures c !in s[..i]
    ensures i < |s| <==> c in s
    ensures i < |s| ==> s[i] == c
  {
    IndexFrom(s, c, 0)
  }

  /** The first `c` sits at `k` when `s[k]` is `c` and nothing before it is. */
  lemma IndexOfAt(s: string, c: char, k: nat)
    requires k < |s| && s[k] == c
    requires forall j :: 0 <= j < k ==> s[j] != c
    ensures IndexOf(s, c) == k
  {
  }

  /** Python's `s.split(c)`: the maximal `c`-free segments, empty ones kept. */
  function Split(s: string, c: char): (parts: seq<string>)
    ensures |parts| >= 1
    ensures parts[0] == s[..IndexOf(s, c)]
    ensures |parts| == 1 <==> c !in s
    decreases |s|
  {
    var i := IndexOf(s, c);
    if i == |s| then [s] else [s[..i]] + Split(s[i + 1..], c)
  }

  /** No segment holds the separator. */
  lemma {:induction false} SplitPartsLackSeparator(s: string, c: char)
    ensures forall k :: 0 <= k < |Split(s, c)| ==> c !in Split(s, c)[k]
    decreases |s|
  {
    var i := IndexOf(s, c);
    if i < |s| {
      SplitAt(s, c, i);
      SplitPartsLackSeparator(s[i + 1..], c);
    }
  }

  /** With the first two separators at `i` and `j`, the second segment is
      the text between them. */
  lemma {:induction false} SecondSegment(s: string, c: char, i: nat, j: nat)
    requires i < j < |s| && s[i] == c && s[j] == c
    requires forall k :: 0 <= k < j && k != i ==> s[k] != c
    ensures c in s && |Split(s, c)| >= 2 && Split(s, c)[1] == s[i + 1..j]
  {
    IndexOfAt(s, c, i);
    var rest := s[i + 1..];
    var m := j - i - 1;
    forall k | 0 <= k < m ensures rest[k] != c {
      ShiftedIndex(s, rest, i + 1, k);
    }
    ShiftedIndex(s, rest, i + 1, m);
    IndexOfAt(rest, c, m);
    SecondPart(s, c, i, m);
    PrefixOfDrop(s, i + 1, m);
  }

  /** A prefix of a suffix is a slice. */
  lemma PrefixOfDrop(s: string, d: nat, m: nat)
    requires d + m <= |s|
    ensures s[d..][..m] == s[d..d + m]
  {
  }

  /** Indexing past a dropped prefix. */
  lemma ShiftedIndex(s: string, rest: string, d: nat, k: nat)
    requires d <= |s| && rest == s[d..] && k < |rest|
    ensures rest[k] == s[d + k]
  {
  }

  /** The second part is the text after the first separator up to the next. */
  lemma {:induction false} SecondPart(s: string, c: char, i: nat, m: nat)
    requires i < |s| && IndexOf(s, c) == i
    requires IndexOf(s[i + 1..], c) == m
    ensures |Split(s, c)| >= 2 && Split(s, c)[1] == s[i + 1..][..m]
  {
    SplitAt(s, c, i);
  }

  /** Splitting at the first separator `i`: the text before it, then the
      parts of the text after it. */
  lemma {:induction false} SplitAt(s: string, c: char, i: nat)
    requires i < |s| && IndexOf(s, c) == i
    ensures Split(s, c) == [s[..i]] + Split(s[i + 1..], c)
  {
  }

  /** Python's `sep.join(parts)` for a one-character separator. */
  function Join(parts: seq<string>, c: char): string
    requires |parts| >= 1
  {
    if |parts| == 1 then parts[0] else parts[0] + [c] + Join(parts[1..], c)
  }

  /** Splitting loses nothing: joining the segments restores the text. */
  lemma {:induction false} JoinSplit(s: string, c: char)
    ensures Join(Split(s, c), c) == s
    decreases |s|
  {
    var i := IndexOf(s, c);
    if i < |s| {
      var rest := s[i + 1..];
      SplitAt(s, c, i);
      JoinSplit(rest, c);
      JoinCons(s[..i], Split(rest, c), c);
      var joined := Join(Split(s, c), c);
      assert joined == s[..i] + [c] + Join(Split(rest, c), c);
      assert joined == s[..i] + [c] + rest;
      Around(s, i);
    } else {
      assert Split(s, c) == [s];
    }
  }

  /** A text is what lies before position `i`, the character there, and
      what lies after. */
  lemma Around(s: string, i: nat)
    requires i < |s|
    ensures s == s[..i] + [s[i]] + s[i + 1..]
  {
  }

  /** Joining a leading segment onto further parts puts one separator
      between them. */
  lemma JoinCons(first: string, parts: seq<string>, c: char)
    requires |parts| >= 1
    ensures Join([first] + parts, c) == first + [c] + Join(parts, c)
  {
    assert ([first] + parts)[1..] == parts;
  }

  /** Python's `s.rfind(c)`: the index of the last `c`, or -1. */
  function RFind(s: string, c: char): (i: int)
    ensures -1 <= i < |s|
    ensures i == -1 <==> c !in s
    ensures 0 <= i ==> s[i] == c && c !in s[i + 1..]
  {
    RFindBefore(s, c, |s|)
  }

  /** The index of the last `c` before position `k`, or -1. */
  function RFindBefore(s: string, c: char, k: nat): (i: int)
    requires k <= |s|
    ensures -1 <= i < k
    ensures forall j :: i < j < k ==> s[j] != c
    ensures 0 <= i ==> s[i] == c
    decreases k
  {
    if k == 0 then -1
    else if s[k - 1] == c then k - 1
    else RFindBefore(s, c, k - 1)
  }

  // ---------------------------------------------------------------------
  // s.title()
  // ---------------------------------------------------------------------

  /** The character `str.title` writes at position `i`: a cased character is
      upper-cased when it starts a run of cased characters and lower-cased
      otherwise; every other character is kept. `prevCased` says whether a
      cased character came before `s[0]`. */
  function TitleAt(s: string, i: nat, prevCased: bool): char
    requires i < |s|
  {
    var startsWord := if i == 0 then !prevCased else !IsCased(s[i - 1]);
    if !IsCased(s[i]) then s[i]
    else if startsWord then ToUpper(s[i])
    else ToLower(s[i])
  }

  /** The left-to-right scan of `str.title`, carrying the "previous character
      was cased" flag. */
  function TitleFrom(s: string, prevCased: bool): (r: string)
    ensures |r| == |s|
    ensures forall i :: 0 <= i < |s| ==> r[i] == TitleAt(s, i, prevCased)
  {
    if s == [] then []
    else
      var c := s[0];
      var head := if !IsCased(c) then c else if prevCased then ToLower(c) else ToUpper(c);
      var tail := TitleFrom(s[1..], IsCased(c));
      assert forall i :: 1 <= i < |s| ==> TitleAt(s[1..], i - 1, IsCased(c)) == TitleAt(s, i, prevCased);
      [head] + tail
  }

  function Title(s: string): (r: string)
    ensures |r| == |s|
  {
    TitleFrom(s, false)
  }

  /** Title-casing keeps which positions hold a cased character. */
  lemma TitleKeepsCasedness(s: string)
    ensures forall i :: 0 <= i < |s| ==> IsCased(Title(s)[i]) == IsCased(s[i])
  {
  }

  /** Title-casing twice is title-casing once. */
  lemma TitleIdempotent(s: string)
    ensures Title(Title(s)) == Title(s)
  {
    var t := Title(s);
    TitleKeepsCasedness(s);
    forall i | 0 <= i < |s|
      ensures Title(t)[i] == t[i]
    {
      CaseMappingsAbsorb(s[i]);
    }
  }

  /** Title-casing leaves characters that are not letters where they were. */
  lemma TitleKeepsUncased(s: string, c: char)
    requires !IsCased(c)
    ensures c in s <==> c in Title(s)
  {
    var t := Title(s);
    if c in s {
      var i :| 0 <= i < |s| && s[i] == c;
      assert t[i] == c;
    }
    if c in t {
      var i :| 0 <= i < |t| && t[i] == c;
      assert TitleAt(s, i, false) == c;
    }
  }
}
