/** String helpers with the meaning of Go's strings package functions the
    program relies on: strings.Contains, strings.Split and strings.Join (for a
    one-character separator), and the index searches they are built from. */
module Text {

  /** Index of the last occurrence of `c` in `s`, or -1 when there is none. */
  function LastIndexOf(s: string, c: char): (i: int)
    ensures -1 <= i < |s|
    ensures 0 <= i ==> s[i] == c
    ensures forall k :: i < k < |s| ==> s[k] != c
  {
    LastIndexBefore(s, c, |s|)
  }

  /** Index of the last occurrence of `c` among the first `n` characters of
      `s`, or -1. */
  function LastIndexBefore(s: string, c: char, n: nat): (i: int)
    requires n <= |s|
    ensures -1 <= i < n
    ensures 0 <= i ==> s[i] == c
    ensures forall k :: i < k < n ==> s[k] != c
  {
    if n == 0 then -1
    else if s[n - 1] == c then n - 1
    else LastIndexBefore(s, c, n - 1)
  }

  /** True when `pat` occurs in `s` starting at index `k`. */
  predicate OccursAt(s: string, pat: string, k: int)
  {
    0 <= k && k + |pat| <= |s| && s[k..k + |pat|] == pat
  }

  /** The first index at or after `k` where `pat` occurs in `s`, or -1. */
  function FindFrom(s: string, pat: string, k: nat): (r: int)
    ensures r == -1 || (k <= r && OccursAt(s, pat, r))
    ensures forall m :: k <= m && OccursAt(s, pat, m) ==> 0 <= r <= m
    decreases |s| - k
  {
    if k + |pat| > |s| then -1
    else if OccursAt(s, pat, k) then k
    else FindFrom(s, pat, k + 1)
  }

  /** The last index at or before `k` where `pat` occurs in `s`, or -1. */
  function FindLast(s: string, pat: string, k: int): (r: int)
    ensures r == -1 || (0 <= r <= k && OccursAt(s, pat, r))
    ensures forall m :: m <= k && OccursAt(s, pat, m) ==> m <= r
    decreases if k < 0 then 0 else k + 1
  {
    if k < 0 then -1
    else if OccursAt(s, pat, k) then k
    else FindLast(s, pat, k - 1)
  }

  /** strings.Contains: `sub` occurs somewhere in `s`. */
  predicate Contains(s: string, sub: string)
    ensures Contains(s, sub) <==> exists k :: OccursAt(s, sub, k)
  {
    FindFrom(s, sub, 0) >= 0
  }

  /** strings.Split with a one-character separator: the text between the
      separators, in order; the empty string splits into [""]. */
  function Split(s: string, sep: char): (parts: seq<string>)
    ensures |parts| >= 1
    ensures forall k :: 0 <= k < |parts| ==> sep !in parts[k]
    decreases |s|
  {
    var i := LastIndexOf(s, sep);
    if i < 0 then [s]
    else Split(s[..i], sep) + [s[i + 1..]]
  }

  /** strings.Join with a one-character separator. */
  function Join(parts: seq<string>, sep: char): string
  {
    if parts == [] then []
    else if |parts| == 1 then parts[0]
    else Join(parts[..|parts| - 1], sep) + [sep] + parts[|parts| - 1]
  }

  /** The last separator of `a + [sep] + b` is the one between them when `b`
      holds none. */
  lemma LastIndexOfAppend(a: string, sep: char, b: string)
    requires sep !in b
    ensures LastIndexOf(a + [sep] + b, sep) == |a|
  {
    var s := a + [sep] + b;
    var i := LastIndexOf(s, sep);
    assert s[|a|] == sep;
  }

  /** An occurrence of `c` with none after it is the last one. */
  lemma LastIndexOfAt(s: string, c: char, i: nat)
    requires i < |s| && s[i] == c
    requires forall k :: i < k < |s| ==> s[k] != c
    ensures LastIndexOf(s, c) == i
  {
  }

  /** A separator followed by text without one adds that text as the last
      part. */
  lemma SplitAppend(a: string, sep: char, b: string)
    requires sep !in b
    ensures Split(a + [sep] + b, sep) == Split(a, sep) + [b]
  {
    var s := a + [sep] + b;
    LastIndexOfAppend(a, sep, b);
    assert s[..|a|] == a;
    assert s[|a| + 1..] == b;
  }

  /** Joining one more part adds a separator and the part. */
  lemma JoinAppend(parts: seq<string>, x: string, sep: char)
    ensures Join(parts + [x], sep) == if parts == [] then x else Join(parts, sep) + [sep] + x
  {
    assert (parts + [x])[..|parts|] == parts;
  }

  /** Splitting a join gives back the parts, as long as none holds the
      separator. */
  lemma {:induction false} SplitJoin(parts: seq<string>, sep: char)
    requires parts != []
    requires forall k :: 0 <= k < |parts| ==> sep !in parts[k]
    ensures Split(Join(parts, sep), sep) == parts
  {
    if |parts| > 1 {
      var init, last := parts[..|parts| - 1], parts[|parts| - 1];
      var j := Join(init, sep);
      var s := j + [sep] + last;
      assert Join(parts, sep) == s;
      LastIndexOfAppend(j, sep, last);
      assert s[..|j|] == j;
      assert s[|j| + 1..] == last;
      SplitJoin(init, sep);
      assert init + [last] == parts;
    } else {
      assert Join(parts, sep) == parts[0];
      assert sep !in parts[0];
    }
  }

  /** A join is at least as long as the number of parts when no part is
      empty. */
  lemma {:induction false} JoinLength(parts: seq<string>, sep: char)
    requires forall k :: 0 <= k < |parts| ==> parts[k] != []
    ensures |Join(parts, sep)| >= |parts|
  {
    if |parts| > 1 {
      JoinLength(parts[..|parts| - 1], sep);
    }
  }
}
