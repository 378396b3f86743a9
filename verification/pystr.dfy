/**
 * The parts of Python's `str` that the scraper relies on: `strip`, `split`
 * with a separator, and `lower`, over strings of Unicode characters.
 */
module PyStr {

  // ---------------------------------------------------------------- strip

  /** The characters for which Python's `str.isspace()` holds; `str.strip()` with no argument removes these. */
  predicate IsSpace(c: char)
  {
    c == ' ' || ('\t' <= c <= '\r') || ('\U{1C}' <= c <= '\U{1F}') ||
    c == '\U{85}' || c == '\U{A0}' || c == '\U{1680}' || ('\U{2000}' <= c <= '\U{200A}') ||
    c == '\U{2028}' || c == '\U{2029}' || c == '\U{202F}' || c == '\U{205F}' || c == '\U{3000}'
  }

  /** Removes the longest prefix made of characters satisfying `drop`. */
  function StripLeft(s: string, drop: char -> bool): (r: string)
    ensures |r| <= |s| && r == s[|s| - |r|..]
    ensures forall k :: 0 <= k < |s| - |r| ==> drop(s[k])
    ensures r == [] || !drop(r[0])
  {
    if |s| > 0 && drop(s[0]) then
      var r := StripLeft(s[1..], drop);
      assert s[1..][|s| - 1 - |r|..] == s[|s| - |r|..];
      assert forall k :: 1 <= k < |s| - |r| ==> s[k] == s[1..][k - 1];
      r
    else s
  }

  /** Removes the longest suffix made of characters satisfying `drop`. */
  function StripRight(s: string, drop: char -> bool): (r: string)
    ensures |r| <= |s| && r == s[..|r|]
    ensures forall k :: |r| <= k < |s| ==> drop(s[k])
    ensures r == [] || !drop(r[|r| - 1])
  {
    if |s| > 0 && drop(s[|s| - 1]) then
      var r := StripRight(s[..|s| - 1], drop);
      assert s[..|s| - 1][..|r|] == s[..|r|];
      r
    else s
  }

  /** Python's `s.strip(chars)`: leading and trailing characters satisfying `drop` go, nothing else does. */
  function Strip(s: string, drop: char -> bool): string
  {
    StripRight(StripLeft(s, drop), drop)
  }

  /** The result of `strip` neither starts nor ends with a character satisfying `drop`. */
  lemma StripEnds(s: string, drop: char -> bool)
    ensures var r := Strip(s, drop); r == [] || (!drop(r[0]) && !drop(r[|r| - 1]))
  {
    var l := StripLeft(s, drop);
    var r := StripRight(l, drop);
    if r != [] {
      assert r[0] == l[0];
    }
  }

  /** A string whose ends do not satisfy `drop` is left as it is. */
  lemma StripUnchanged(s: string, drop: char -> bool)
    requires s == [] || (!drop(s[0]) && !drop(s[|s| - 1]))
    ensures Strip(s, drop) == s
  {
  }

  /** Trailing characters satisfying `drop` do not survive `strip`. */
  lemma {:induction false} StripRightSuffix(s: string, tail: string, drop: char -> bool)
    requires forall k :: 0 <= k < |tail| ==> drop(tail[k])
    ensures StripRight(s + tail, drop) == StripRight(s, drop)
    decreases |tail|
  {
    if tail != [] {
      var shorter := tail[..|tail| - 1];
      assert (s + tail)[..|s + tail| - 1] == s + shorter;
      StripRightSuffix(s, shorter, drop);
    } else {
      assert s + tail == s;
    }
  }

  // ---------------------------------------------------------------- split

  /** `sep` occurs in `s` starting at index `j`. */
  predicate OccursAt(s: string, sep: string, j: int)
  {
    0 <= j && j + |sep| <= |s| && s[j..j + |sep|] == sep
  }

  /** Python's `sep in s`. */
  predicate Contains(s: string, sep: string)
  {
    exists j :: 0 <= j <= |s| && OccursAt(s, sep, j)
  }

  /** Python's `s.find(sep, from)`: the leftmost occurrence at or after `from`, or -1. */
  function Find(s: string, sep: string, from: nat): (r: int)
    requires from <= |s|
    ensures r == -1 || (from <= r && OccursAt(s, sep, r))
    ensures r == -1 ==> forall j :: from <= j ==> !OccursAt(s, sep, j)
    ensures r != -1 ==> forall j :: from <= j < r ==> !OccursAt(s, sep, j)
    decreases |s| - from
  {
    if from + |sep| > |s| then -1
    else if s[from..from + |sep|] == sep then from
    else Find(s, sep, from + 1)
  }

  /**
   * Python's `s.split(sep)` for a non-empty separator: occurrences are taken
   * left to right and do not overlap.
   */
  function Split(s: string, sep: string): (fields: seq<string>)
    requires sep != []
    ensures |fields| >= 1
    decreases |s|
  {
    var i := Find(s, sep, 0);
    if i == -1 then [s] else [s[..i]] + Split(s[i + |sep|..], sep)
  }

  /** Python's `sep.join(fields)`. */
  function Join(fields: seq<string>, sep: string): string
  {
    if |fields| == 0 then ""
    else if |fields| == 1 then fields[0]
    else fields[0] + sep + Join(fields[1..], sep)
  }

  /** `split` loses nothing: joining the fields with the separator gives back the string. */
  lemma {:induction false} JoinSplit(s: string, sep: string)
    requires sep != []
    ensures Join(Split(s, sep), sep) == s
    decreases |s|
  {
    var i := Find(s, sep, 0);
    if i != -1 {
      var rest := s[i + |sep|..];
      JoinSplit(rest, sep);
      SplitAt(s, sep, i);
      JoinCons(s[..i], Split(rest, sep), sep);
    }
  }

  /** One step of `split`: the first field ends at the first occurrence, and the string is that field, the separator and the rest. */
  lemma SplitAt(s: string, sep: string, i: int)
    requires sep != [] && i == Find(s, sep, 0) && i != -1
    ensures 0 <= i && i + |sep| <= |s|
    ensures Split(s, sep) == [s[..i]] + Split(s[i + |sep|..], sep)
    ensures s == s[..i] + sep + s[i + |sep|..]
  {
    AroundOccurrence(s, sep, i);
  }

  /** A string is what comes before an occurrence, the separator, and what comes after it. */
  lemma AroundOccurrence(s: string, sep: string, i: int)
    requires OccursAt(s, sep, i)
    ensures s == s[..i] + sep + s[i + |sep|..]
  {
    assert s == s[..i] + s[i..i + |sep|] + s[i + |sep|..];
  }

  /** Joining a field in front of a non-empty list of fields puts the separator between them. */
  lemma JoinCons(head: string, tail: seq<string>, sep: string)
    requires tail != []
    ensures Join([head] + tail, sep) == head + sep + Join(tail, sep)
  {
    assert ([head] + tail)[1..] == tail;
  }

  /** A prefix of `s` that ends before the first occurrence of `sep` contains no `sep`. */
  lemma PrefixBeforeFirst(s: string, sep: string, i: int)
    requires sep != [] && 0 <= i <= |s|
    requires forall j :: 0 <= j < i ==> !OccursAt(s, sep, j)
    ensures !Contains(s[..i], sep)
  {
    assert s[..i] == s[0..i];
    SliceOccurrences(s, sep, 0, i);
  }

  /** No field that `split` returns contains the separator. */
  lemma {:induction false} SplitFieldsFree(s: string, sep: string)
    requires sep != []
    ensures forall k :: 0 <= k < |Split(s, sep)| ==> !Contains(Split(s, sep)[k], sep)
    decreases |s|
  {
    var i := Find(s, sep, 0);
    if i == -1 {
      assert Split(s, sep) == [s];
      assert !Contains(s, sep);
    } else {
      var rest := s[i + |sep|..];
      SplitFieldsFree(rest, sep);
      PrefixBeforeFirst(s, sep, i);
      assert Split(s, sep) == [s[..i]] + Split(rest, sep);
    }
  }

  /** A string that does not contain the separator splits into itself alone. */
  lemma SplitNoSeparator(s: string, sep: string)
    requires sep != [] && !Contains(s, sep)
    ensures Split(s, sep) == [s]
  {
  }

  /**
   * When no occurrence of `sep` starts inside `u`, `split` of `u + sep + rest`
   * cuts off `u` as the first field and goes on with `rest`.
   */
  lemma SplitCons(u: string, rest: string, sep: string)
    requires sep != []
    requires forall j :: 0 <= j < |u| ==> !OccursAt(u + sep + rest, sep, j)
    ensures Split(u + sep + rest, sep) == [u] + Split(rest, sep)
  {
    var s := u + sep + rest;
    assert s[|u|..|u| + |sep|] == sep;
    assert OccursAt(s, sep, |u|);
    var i := Find(s, sep, 0);
    assert i == |u|;
    assert s[..i] == u;
    assert s[i + |sep|..] == rest;
  }

  /** Joining two fields: `split` gives back exactly the two fields. */
  lemma SplitTwo(u: string, b: string, sep: string)
    requires sep != []
    requires forall j :: 0 <= j < |u| ==> !OccursAt(u + sep + b, sep, j)
    requires !Contains(b, sep)
    ensures Split(u + sep + b, sep) == [u, b]
  {
    SplitCons(u, b, sep);
    SplitNoSeparator(b, sep);
  }

  /** An occurrence of `sep` starts with `sep`'s first character. */
  lemma OccursAtStart(s: string, sep: string, j: int)
    requires sep != []
    ensures OccursAt(s, sep, j) ==> s[j] == sep[0]
  {
    if OccursAt(s, sep, j) {
      assert s[j..j + |sep|][0] == s[j];
    }
  }

  /** A string none of whose characters starts `sep` does not contain `sep`, whatever follows it. */
  lemma NoStartNoOccurrence(u: string, rest: string, sep: string)
    requires sep != []
    requires forall k :: 0 <= k < |u| ==> u[k] != sep[0]
    ensures forall j :: 0 <= j < |u| ==> !OccursAt(u + rest, sep, j)
    ensures !Contains(u, sep)
  {
    forall j | 0 <= j < |u|
      ensures !OccursAt(u + rest, sep, j) && !OccursAt(u, sep, j)
    {
      assert (u + rest)[j] == u[j];
      OccursAtStart(u + rest, sep, j);
      OccursAtStart(u, sep, j);
    }
  }

  /** An occurrence inside a slice is an occurrence in the whole string, shifted by the slice's start. */
  lemma OccursInSlice(s: string, sep: string, i: int, j: int, k: int)
    requires 0 <= i <= j <= |s|
    requires OccursAt(s[i..j], sep, k)
    ensures OccursAt(s, sep, i + k)
  {
    var w := s[i..j];
    forall m | 0 <= m < |sep|
      ensures s[i + k + m] == sep[m]
    {
      assert w[k + m] == s[i + k + m];
      assert w[k..k + |sep|][m] == w[k + m];
    }
    assert s[i + k..i + k + |sep|] == sep;
  }

  /** Substrings of a string without `sep` are without `sep` too. */
  lemma ContainsInfix(s: string, sep: string, i: int, j: int)
    requires 0 <= i <= j <= |s|
    requires !Contains(s, sep)
    ensures !Contains(s[i..j], sep)
  {
    SliceOccurrences(s, sep, i, j);
  }

  /** Every occurrence inside the slice `s[i..j]` is one in `s`. */
  lemma SliceOccurrences(s: string, sep: string, i: int, j: int)
    requires 0 <= i <= j <= |s|
    ensures forall k :: OccursAt(s[i..j], sep, k) ==> OccursAt(s, sep, i + k)
  {
    forall k | OccursAt(s[i..j], sep, k)
      ensures OccursAt(s, sep, i + k)
    {
      OccursInSlice(s, sep, i, j, k);
    }
  }

  // ---------------------------------------------------------------- lower

  /** Upper-case letters of the basic Latin and Cyrillic alphabets. */
  predicate IsUpper(c: char)
  {
    ('A' <= c <= 'Z') || ('\U{400}' <= c <= '\U{42F}')
  }

  /** `c.lower()` for basic Latin and Cyrillic letters; every other character maps to itself. */
  function LowerChar(c: char): (d: char)
    ensures !IsUpper(d)
    ensures !IsUpper(c) ==> d == c
  {
    if 'A' <= c <= 'Z' then (c as int + 32) as char
    else if '\U{410}' <= c <= '\U{42F}' then (c as int + 32) as char
    else if '\U{400}' <= c <= '\U{40F}' then (c as int + 80) as char
    else c
  }

  /** `s.lower()`, character by character. */
  function Lower(s: string): (r: string)
    ensures |r| == |s|
    ensures forall k :: 0 <= k < |s| ==> r[k] == LowerChar(s[k])
  {
    if s == [] then [] else [LowerChar(s[0])] + Lower(s[1..])
  }

  /** Lowering leaves no upper-case letter, and a string already without one is left unchanged. */
  lemma LowerNormalForm(s: string)
    ensures forall k :: 0 <= k < |s| ==> !IsUpper(Lower(s)[k])
    ensures (forall k :: 0 <= k < |s| ==> !IsUpper(s[k])) ==> Lower(s) == s
  {
  }
}
