/**
 The handful of Python `str` operations the wiki parser relies on, over
 `string` (a `seq<char>`): leftmost search, `split(sep)`, `split(sep, 1)`,
 `startswith(prefix)`, `"".join(...)`/`sep.join(...)` and `replace(old, "")`.
 Every search scans left to right and matches never overlap, as in CPython.
 */
module Strings {
  import opened Wrappers

  /** `pat` occurs in `s` starting at index `i`. */
  predicate OccursAt(s: string, pat: string, i: int)
  {
    0 <= i && i + |pat| <= |s| && s[i..i + |pat|] == pat
  }

  /** Index of the leftmost occurrence of `pat` in `s` at or after `from`
      (Python's `s.find(pat, from)`, with `None` for -1). */
  function Find(s: string, pat: string, from: nat): (r: Option<nat>)
    ensures r.Some? ==> from <= r.value && OccursAt(s, pat, r.value)
    ensures r.Some? ==> forall j :: from <= j < r.value ==> !OccursAt(s, pat, j)
    ensures r.None? ==> forall j :: from <= j ==> !OccursAt(s, pat, j)
    decreases |s| - from
  {
    if from + |pat| > |s| then None
    else if s[from..from + |pat|] == pat then Some(from)
    else Find(s, pat, from + 1)
  }

  /** Python's `pat in s`. */
  predicate Contains(s: string, pat: string)
  {
    Find(s, pat, 0).Some?
  }

  /** Python's `s.startswith(prefix)`. */
  predicate StartsWith(s: string, prefix: string)
  {
    |prefix| <= |s| && s[..|prefix|] == prefix
  }

  /** Python's `sep.join(xs)`. */
  function Join(xs: seq<string>, sep: string): string
    decreases |xs|
  {
    if |xs| == 0 then ""
    else if |xs| == 1 then xs[0]
    else xs[0] + sep + Join(xs[1..], sep)
  }

  /** Python's `s.split(sep)`: the pieces between successive leftmost,
      non-overlapping occurrences of `sep`, empty pieces included. */
  function Split(s: string, sep: string): (r: seq<string>)
    requires |sep| > 0
    ensures |r| >= 1
    ensures Join(r, sep) == s
    ensures forall k :: 0 <= k < |r| ==> !Contains(r[k], sep)
    decreases |s|
  {
    match Find(s, sep, 0)
    case None => [s]
    case Some(i) =>
      var rest := Split(s[i + |sep|..], sep);
      PrefixBeforeFindIsFree(s, sep, i);
      JoinCons(s[..i], rest, sep);
      assert s == s[..i] + sep + s[i + |sep|..];
      [s[..i]] + rest
  }

  /** Python's `s.split(sep, 1)`: one piece when `sep` does not occur,
      otherwise the text before its leftmost occurrence and everything after it. */
  function SplitOnce(s: string, sep: string): (r: seq<string>)
    requires |sep| > 0
    ensures |r| == 1 || |r| == 2
    ensures |r| == 2 <==> Contains(s, sep)
    ensures |r| == 1 ==> r[0] == s
    ensures |r| == 2 ==> s == r[0] + sep + r[1] && Find(s, sep, 0) == Some(|r[0]|)
    ensures |r| == 2 ==> !Contains(r[0], sep)
  {
    match Find(s, sep, 0)
    case None => [s]
    case Some(i) =>
      assert s == s[..i] + sep + s[i + |sep|..];
      PrefixBeforeFindIsFree(s, sep, i);
      [s[..i], s[i + |sep|..]]
  }

  /** Python's `s.replace(pat, "")`: walk `s` left to right, dropping each
      occurrence of `pat` found at the current position and keeping every
      other character. */
  function RemoveAll(s: string, pat: string): (r: string)
    requires |pat| > 0
    ensures |r| <= |s|
    decreases |s|
  {
    if |s| < |pat| then s
    else if s[..|pat|] == pat then
      assert s == s[..|pat|] + s[|pat|..];
      RemoveAll(s[|pat|..], pat)
    else
      assert s == [s[0]] + s[1..];
      [s[0]] + RemoveAll(s[1..], pat)
  }

  // ---------------------------------------------------------------------------
  // Occurrences under slicing and concatenation

  lemma OccursAtAppend(a: string, b: string, pat: string, j: int)
    requires 0 <= j && j + |pat| <= |a|
    ensures OccursAt(a + b, pat, j) <==> OccursAt(a, pat, j)
  {
    assert (a + b)[j..j + |pat|] == a[j..j + |pat|];
  }

  lemma OccursAtDrop(s: string, d: nat, pat: string, j: int)
    requires d <= |s| && 0 <= j
    ensures OccursAt(s[d..], pat, j) <==> OccursAt(s, pat, j + d)
  {
    if j + d + |pat| <= |s| {
      assert s[d..][j..j + |pat|] == s[j + d..j + d + |pat|];
    }
  }

  lemma AppendedOccurs(h: string, pat: string)
    ensures OccursAt(h + pat, pat, |h|)
  {
    assert (h + pat)[|h|..|h| + |pat|] == pat;
  }

  /** An occurrence cannot start where the text differs from the pattern's
      first character. */
  lemma CharBlocksOccurrence(s: string, pat: string, j: nat)
    requires |pat| > 0 && j < |s| && s[j] != pat[0]
    ensures !OccursAt(s, pat, j)
  {
    if j + |pat| <= |s| {
      assert s[j..j + |pat|][0] == s[j];
    }
  }

  /** Find's contract pins its result down: the leftmost occurrence is unique. */
  lemma FindIsLeftmost(s: string, pat: string, from: nat, i: nat)
    requires from <= i && OccursAt(s, pat, i)
    requires forall j :: from <= j < i ==> !OccursAt(s, pat, j)
    ensures Find(s, pat, from) == Some(i)
  {
  }

  /** The text before the leftmost occurrence of `sep` does not contain `sep`. */
  lemma PrefixBeforeFindIsFree(s: string, sep: string, i: nat)
    requires |sep| > 0 && Find(s, sep, 0) == Some(i)
    ensures !Contains(s[..i], sep)
  {
    var p := s[..i];
    if Find(p, sep, 0).Some? {
      var j := Find(p, sep, 0).value;
      assert OccursAt(p, sep, j) && j < i;
      assert s == p + s[i..];
      assert !OccursAt(s, sep, j);
      OccursAtAppend(p, s[i..], sep, j);
      assert false;
    }
  }

  /** A leftmost occurrence in `a` stays leftmost whatever follows `a`. */
  lemma FindAppend(a: string, b: string, pat: string, i: nat)
    requires Find(a, pat, 0) == Some(i)
    ensures Find(a + b, pat, 0) == Some(i)
  {
    OccursAtAppend(a, b, pat, i);
    forall j | 0 <= j < i
      ensures !OccursAt(a + b, pat, j)
    {
      OccursAtAppend(a, b, pat, j);
    }
    FindIsLeftmost(a + b, pat, 0, i);
  }

  // ---------------------------------------------------------------------------
  // Join

  lemma JoinCons(a: string, rest: seq<string>, sep: string)
    requires |rest| >= 1
    ensures Join([a] + rest, sep) == a + sep + Join(rest, sep)
  {
    assert ([a] + rest)[1..] == rest;
  }

  /** Prepending a character to the first piece prepends it to the concatenation. */
  lemma ConcatConsChar(c: char, t: seq<string>)
    requires |t| >= 1
    ensures Join([[c] + t[0]] + t[1..], "") == [c] + Join(t, "")
  {
    if |t| == 1 {
      assert [[c] + t[0]] + t[1..] == [[c] + t[0]];
    } else {
      ConcatConsCharLonger(c, t);
    }
  }

  lemma ConcatConsCharLonger(c: char, t: seq<string>)
    requires |t| > 1
    ensures Join([[c] + t[0]] + t[1..], "") == [c] + Join(t, "")
  {
    var x := [c] + t[0];
    var rest := t[1..];
    var j := Join(rest, "");
    JoinCons(x, rest, "");
    assert x + "" == x;
    assert Join([x] + rest, "") == x + j;
    JoinCons(t[0], rest, "");
    assert t == [t[0]] + rest;
    assert t[0] + "" == t[0];
    assert Join(t, "") == t[0] + j;
    assert x + j == [c] + (t[0] + j);
  }

  // ---------------------------------------------------------------------------
  // Split

  /** A string without `sep` splits into itself alone. */
  lemma SplitAbsent(s: string, sep: string)
    requires |sep| > 0 && !Contains(s, sep)
    ensures Split(s, sep) == [s]
  {
  }

  /** `h + sep + rest` splits at the appended `sep` when that is its leftmost
      occurrence in `h + sep`: the pieces are `h` followed by the pieces of `rest`. */
  lemma SplitAfterHead(h: string, sep: string, rest: string)
    requires |sep| > 0 && Find(h + sep, sep, 0) == Some(|h|)
    ensures Split(h + sep + rest, sep) == [h] + Split(rest, sep)
  {
    var s := h + sep + rest;
    assert s == (h + sep) + rest;
    FindAppend(h + sep, rest, sep, |h|);
    assert s[..|h|] == h;
    assert s[|h| + |sep|..] == rest;
  }

  lemma ShiftOccurrences(s: string, sep: string)
    requires |s| > 0
    ensures forall j :: 0 <= j ==> (OccursAt(s[1..], sep, j) <==> OccursAt(s, sep, j + 1))
  {
    forall j | 0 <= j
      ensures OccursAt(s[1..], sep, j) <==> OccursAt(s, sep, j + 1)
    {
      OccursAtDrop(s, 1, sep, j);
    }
  }

  /** One step of the scan: when `sep` does not start `s`, the first character
      of `s` joins the first piece of the split of the rest. */
  lemma SplitStep(s: string, sep: string)
    requires |sep| > 0 && |s| > 0 && !OccursAt(s, sep, 0)
    ensures var t := Split(s[1..], sep); Split(s, sep) == [[s[0]] + t[0]] + t[1..]
  {
    ShiftOccurrences(s, sep);
    match Find(s[1..], sep, 0)
    case None => SplitStepAbsent(s, sep);
    case Some(i) =>
      FindShifted(s, sep, i);
      SplitStepFound(s, sep, i);
  }

  lemma SplitStepAbsent(s: string, sep: string)
    requires |sep| > 0 && |s| > 0 && !OccursAt(s, sep, 0)
    requires forall j :: 0 <= j ==> (OccursAt(s[1..], sep, j) <==> OccursAt(s, sep, j + 1))
    requires Find(s[1..], sep, 0) == None
    ensures var t := Split(s[1..], sep); Split(s, sep) == [[s[0]] + t[0]] + t[1..]
  {
    var t := s[1..];
    forall j | 0 <= j
      ensures !OccursAt(s, sep, j)
    {
      if j > 0 {
        assert !OccursAt(t, sep, j - 1);
      }
    }
    assert Find(s, sep, 0) == None;
    assert Split(s, sep) == [s];
    assert Split(t, sep) == [t];
    assert [s[0]] + t == s;
  }

  lemma SplitStepFound(s: string, sep: string, i: nat)
    requires |sep| > 0 && |s| > 0
    requires Find(s[1..], sep, 0) == Some(i) && Find(s, sep, 0) == Some(i + 1)
    ensures var t := Split(s[1..], sep); Split(s, sep) == [[s[0]] + t[0]] + t[1..]
  {
    var t := s[1..];
    SplitAtFind(s, sep, i + 1);
    SplitAtFind(t, sep, i);
    ShiftedSlices(s, i, |sep|);
    ConsOntoHead(s[0], t[..i], s[..i + 1], Split(s[i + 1 + |sep|..], sep));
  }

  lemma ShiftedSlices(s: string, i: nat, n: nat)
    requires 0 < |s| && i + 1 + n <= |s|
    ensures s[1..][i + n..] == s[i + 1 + n..]
    ensures [s[0]] + s[1..][..i] == s[..i + 1]
  {
  }

  lemma ConsOntoHead(c: char, a: string, b: string, tail: seq<string>)
    requires [c] + a == b
    ensures var xs := [a] + tail; [[c] + xs[0]] + xs[1..] == [b] + tail
  {
    var xs := [a] + tail;
    assert xs[0] == a && xs[1..] == tail;
  }

  /** The leftmost occurrence in `s[1..]` is one place further on in `s`
      when `s` itself does not start with `sep`. */
  lemma FindShifted(s: string, sep: string, i: nat)
    requires |sep| > 0 && |s| > 0 && !OccursAt(s, sep, 0)
    requires forall j :: 0 <= j ==> (OccursAt(s[1..], sep, j) <==> OccursAt(s, sep, j + 1))
    requires Find(s[1..], sep, 0) == Some(i)
    ensures Find(s, sep, 0) == Some(i + 1)
  {
    var t := s[1..];
    forall j | 0 <= j < i + 1
      ensures !OccursAt(s, sep, j)
    {
      if j > 0 {
        assert !OccursAt(t, sep, j - 1);
      }
    }
    FindIsLeftmost(s, sep, 0, i + 1);
  }

  /** Split cuts at the leftmost occurrence. */
  lemma SplitAtFind(s: string, sep: string, i: nat)
    requires |sep| > 0 && Find(s, sep, 0) == Some(i)
    ensures i + |sep| <= |s|
    ensures Split(s, sep) == [s[..i]] + Split(s[i + |sep|..], sep)
  {
  }

  /** Splitting inverts joining when each joined piece ends before the
      leftmost `sep` that follows it and the last piece holds no `sep`. */
  lemma {:induction false} SplitOfJoin(xs: seq<string>, sep: string)
    requires |sep| > 0 && |xs| >= 1
    requires forall i :: 0 <= i < |xs| - 1 ==> Find(xs[i] + sep, sep, 0) == Some(|xs[i]|)
    requires !Contains(xs[|xs| - 1], sep)
    ensures Split(Join(xs, sep), sep) == xs
    decreases |xs|
  {
    if |xs| == 1 {
      SplitAbsent(xs[0], sep);
    } else {
      var tail := xs[1..];
      forall i | 0 <= i < |tail| - 1
        ensures Find(tail[i] + sep, sep, 0) == Some(|tail[i]|)
      {
        assert tail[i] == xs[i + 1];
      }
      SplitOfJoin(tail, sep);
      SplitAfterHead(xs[0], sep, Join(tail, sep));
      assert xs == [xs[0]] + tail;
    }
  }

  /** A text lacking any one character of `pat` does not contain `pat`. */
  lemma MissingCharMeansAbsent(s: string, pat: string, k: nat)
    requires k < |pat| && pat[k] !in s
    ensures !Contains(s, pat)
  {
    if Find(s, pat, 0).Some? {
      assert false;
    }
  }

  /** `split(sep, 1)` is the first piece of `split(sep)` and the rest re-joined. */
  lemma SplitOnceIsSplitHead(s: string, sep: string)
    requires |sep| > 0
    ensures var whole := Split(s, sep);
            SplitOnce(s, sep) == if |whole| == 1 then [s] else [whole[0], Join(whole[1..], sep)]
  {
    match Find(s, sep, 0)
    case None =>
    case Some(i) =>
      var whole := Split(s, sep);
      assert whole[1..] == Split(s[i + |sep|..], sep);
  }

  /** Only the leftmost separator cuts: when `key + sep` holds its leftmost
      `sep` at its end, `key + sep + value` splits once into exactly `key` and
      `value`, whatever `value` contains (further separators included). */
  lemma SplitOnceOfJoin(key: string, sep: string, value: string)
    requires |sep| > 0 && Find(key + sep, sep, 0) == Some(|key|)
    ensures SplitOnce(key + sep + value, sep) == [key, value]
  {
    var s := key + sep + value;
    assert s == (key + sep) + value;
    FindAppend(key + sep, value, sep, |key|);
    assert s[..|key|] == key;
    assert s[|key| + |sep|..] == value;
  }

  // ---------------------------------------------------------------------------
  // RemoveAll

  /** `s.replace(pat, "")` is `"".join(s.split(pat))`. */
  lemma {:induction false} RemoveAllIsJoinSplit(s: string, pat: string)
    requires |pat| > 0
    ensures RemoveAll(s, pat) == Join(Split(s, pat), "")
    decreases |s|
  {
    if |s| < |pat| {
      assert Find(s, pat, 0) == None;
    } else if s[..|pat|] == pat {
      assert Find(s, pat, 0) == Some(0);
      RemoveAllIsJoinSplit(s[|pat|..], pat);
      JoinCons(s[..0], Split(s[|pat|..], pat), "");
    } else {
      RemoveAllIsJoinSplit(s[1..], pat);
      SplitStep(s, pat);
      ConcatConsChar(s[0], Split(s[1..], pat));
    }
  }

  /** An occurrence at the front is dropped. */
  lemma RemoveAllDropsLeading(pat: string, b: string)
    requires |pat| > 0
    ensures RemoveAll(pat + b, pat) == RemoveAll(b, pat)
  {
    assert (pat + b)[..|pat|] == pat;
    assert (pat + b)[|pat|..] == b;
  }

  /** A front character that is not an occurrence's start is kept. */
  lemma RemoveAllKeepsHead(s: string, pat: string)
    requires |pat| > 0 && |s| > 0 && !StartsWith(s, pat)
    ensures RemoveAll(s, pat) == [s[0]] + RemoveAll(s[1..], pat)
  {
    if |s| < |pat| {
      assert RemoveAll(s[1..], pat) == s[1..];
      assert s == [s[0]] + s[1..];
    }
  }

  /** A front part without the pattern's first character passes through unchanged. */
  lemma {:induction false} RemoveAllKeepsCleanPrefix(a: string, b: string, pat: string)
    requires |pat| > 0 && pat[0] !in a
    ensures RemoveAll(a + b, pat) == a + RemoveAll(b, pat)
    decreases |a|
  {
    if |a| == 0 {
      assert a + b == b;
    } else {
      var s := a + b;
      assert s[0] == a[0];
      if |s| >= |pat| {
        assert s[..|pat|][0] != pat[0];
      }
      RemoveAllKeepsHead(s, pat);
      assert s[1..] == a[1..] + b;
      RemoveAllKeepsCleanPrefix(a[1..], b, pat);
      var r := RemoveAll(b, pat);
      assert RemoveAll(s, pat) == [a[0]] + (a[1..] + r);
      assert [a[0]] + (a[1..] + r) == ([a[0]] + a[1..]) + r;
      assert [a[0]] + a[1..] == a;
    }
  }

  /** Removing a pattern that does not occur changes nothing. */
  lemma RemoveAllAbsent(s: string, pat: string)
    requires |pat| > 0 && !Contains(s, pat)
    ensures RemoveAll(s, pat) == s
  {
    RemoveAllIsJoinSplit(s, pat);
    SplitAbsent(s, pat);
  }

  /** After removing a one-character pattern that character is gone. */
  lemma {:induction false} RemoveAllCharIsGone(s: string, c: char)
    ensures c !in RemoveAll(s, [c])
    decreases |s|
  {
    if |s| < 1 {
    } else if s[..1] == [c] {
      RemoveAllCharIsGone(s[1..], c);
    } else {
      RemoveAllCharIsGone(s[1..], c);
      assert s[0] != c by { assert s[..1] == [s[0]]; }
    }
  }

  /** Removal never introduces a character. */
  lemma {:induction false} RemoveAllKeepsAbsent(s: string, pat: string, c: char)
    requires |pat| > 0 && c !in s
    ensures c !in RemoveAll(s, pat)
    decreases |s|
  {
    if |s| < |pat| {
    } else if s[..|pat|] == pat {
      RemoveAllKeepsAbsent(s[|pat|..], pat, c);
    } else {
      RemoveAllKeepsAbsent(s[1..], pat, c);
    }
  }

  /** No two adjacent characters of `s` are both `c`. */
  predicate NoPair(s: string, c: char)
  {
    forall k :: 0 <= k < |s| - 1 ==> !(s[k] == c && s[k + 1] == c)
  }

  /** Removing `[c, c]` keeps a first character other than `c`. */
  lemma RemovePairKeepsHead(s: string, c: char)
    requires |s| > 0 && s[0] != c
    ensures |RemoveAll(s, [c, c])| > 0 && RemoveAll(s, [c, c])[0] == s[0]
  {
  }

  /** A doubled character cannot re-form once removed: `replace(cc, "")`
      leaves no `cc`. (Patterns such as "ab" can: "aabb" becomes "ab".) */
  lemma {:induction false} RemoveAllPairIsGone(s: string, c: char)
    ensures NoPair(RemoveAll(s, [c, c]), c)
    decreases |s|
  {
    if |s| < 2 {
    } else if s[..2] == [c, c] {
      RemoveAllPairIsGone(s[2..], c);
    } else {
      var t := RemoveAll(s[1..], [c, c]);
      RemoveAllPairIsGone(s[1..], c);
      if s[0] == c {
        assert s[1] != c by { assert s[..2] == [s[0], s[1]]; }
        RemovePairKeepsHead(s[1..], c);
      }
      assert RemoveAll(s, [c, c]) == [s[0]] + t;
    }
  }

  lemma PairAt(s: string, c: char, j: int)
    requires OccursAt(s, [c, c], j)
    ensures 0 <= j < |s| - 1 && s[j] == c && s[j + 1] == c
  {
    assert s[j..j + 2][0] == s[j];
    assert s[j..j + 2][1] == s[j + 1];
  }

  lemma NoPairIsNotContains(s: string, c: char)
    requires NoPair(s, c)
    ensures !Contains(s, [c, c])
  {
    if Find(s, [c, c], 0).Some? {
      var j := Find(s, [c, c], 0).value;
      PairAt(s, c, j);
      assert false;
    }
  }
}
