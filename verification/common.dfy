/** Primitives of the two host languages that the modelled code leans on:
    optional values, JavaScript string and array operations (`includes`,
    `startsWith`, `trim`, `toLowerCase`, `filter`, `slice`, `length`,
    the `||` fallback) and the order-preserving subsequence relation. */
module Common {

  /** A value that may be absent (`undefined`/`null` in JavaScript, `None` in Python). */
  datatype Option<+T> = None | Some(value: T)

  function Min(a: int, b: int): int { if a <= b then a else b }
  function Max(a: int, b: int): int { if a >= b then a else b }

  /** `p` is a prefix of `s`. */
  predicate IsPrefix<T(==)>(p: seq<T>, s: seq<T>) {
    |p| <= |s| && s[..|p|] == p
  }

  /** `q` occurs in `s` starting at index `i`. */
  predicate OccursAt(s: string, q: string, i: int) {
    0 <= i <= |s| - |q| && s[i..i + |q|] == q
  }

  /** JavaScript `s.includes(q)` (and Python `q in s`): some position of `s` starts with `q`. */
  function Includes(s: string, q: string): (r: bool)
    ensures r <==> exists i :: OccursAt(s, q, i)
    decreases |s|
  {
    if IsPrefix(q, s) then
      assert OccursAt(s, q, 0);
      true
    else if |s| == 0 then
      assert forall i :: !OccursAt(s, q, i);
      false
    else
      var rest := Includes(s[1..], q);
      assert forall i :: OccursAt(s[1..], q, i) ==> OccursAt(s, q, i + 1);
      assert forall i :: OccursAt(s, q, i) && i > 0 ==> OccursAt(s[1..], q, i - 1);
      rest
  }

  /** Lower-casing of one character; only the ASCII letters `A`..`Z` are mapped. */
  function LowerChar(c: char): char {
    if 'A' <= c <= 'Z' then (c as int + 32) as char else c
  }

  /** `toLowerCase()` / Python `lower()`, character by character. */
  function Lower(s: string): (r: string)
    ensures |r| == |s|
    ensures forall i :: 0 <= i < |s| ==> r[i] == LowerChar(s[i])
  {
    seq(|s|, i requires 0 <= i < |s| => LowerChar(s[i]))
  }

  /** Lower-casing twice is the same as lower-casing once. */
  lemma LowerIdempotent(s: string)
    ensures Lower(Lower(s)) == Lower(s)
  {
    assert forall i :: 0 <= i < |s| ==> LowerChar(LowerChar(s[i])) == LowerChar(s[i]);
  }

  /** The characters JavaScript `String.prototype.trim` removes: white space
      (including every Unicode space separator) and line terminators. */
  predicate IsWhitespace(c: char) {
    c in {'\t', '\n', '\U{000B}', '\U{000C}', '\r', ' ', '\U{00A0}', '\U{1680}',
          '\U{2000}', '\U{2001}', '\U{2002}', '\U{2003}', '\U{2004}', '\U{2005}',
          '\U{2006}', '\U{2007}', '\U{2008}', '\U{2009}', '\U{200A}', '\U{2028}',
          '\U{2029}', '\U{202F}', '\U{205F}', '\U{3000}', '\U{FEFF}'}
  }

  /** Every character of `s` is white space (vacuously true for ""). */
  predicate IsBlank(s: string) {
    forall i :: 0 <= i < |s| ==> IsWhitespace(s[i])
  }

  /** The end of the run of white space that starts at `i`. */
  function SkipBlankForward(s: string, i: nat): (k: nat)
    requires i <= |s| && IsBlank(s[..i])
    ensures i <= k <= |s| && IsBlank(s[..k])
    ensures k < |s| ==> !IsWhitespace(s[k])
    decreases |s| - i
  {
    if i < |s| && IsWhitespace(s[i]) then
      assert s[..i + 1] == s[..i] + [s[i]];
      SkipBlankForward(s, i + 1)
    else i
  }

  /** The start of the run of white space that ends at `j`. */
  function SkipBlankBackward(s: string, j: nat): (k: nat)
    requires j <= |s| && IsBlank(s[j..])
    ensures k <= j && IsBlank(s[k..])
    ensures k > 0 ==> !IsWhitespace(s[k - 1])
  {
    if j > 0 && IsWhitespace(s[j - 1]) then
      assert s[j - 1..] == [s[j - 1]] + s[j..];
      SkipBlankBackward(s, j - 1)
    else j
  }

  /** JavaScript `s.trim()`: the result is empty exactly when `s` is blank,
      and otherwise it is the part of `s` between its first and last
      non-white-space characters. */
  function Trim(s: string): (r: string)
    ensures r == [] <==> IsBlank(s)
    ensures |r| > 0 ==> !IsWhitespace(r[0]) && !IsWhitespace(r[|r| - 1])
    ensures exists k, e :: 0 <= k <= e <= |s| && r == s[k..e] && IsBlank(s[..k]) && IsBlank(s[e..])
  {
    var k := SkipBlankForward(s, 0);
    if k == |s| then
      assert s[..k] == s && s[k..] == [] && s[k..k] == [];
      assert IsBlank(s[..k]) && IsBlank(s[k..]);
      []
    else
      var e := SkipBlankBackward(s, |s|);
      assert !IsBlank(s) by { assert !IsWhitespace(s[k]); }
      s[k..e]
  }

  /** The number of UTF-16 code units of `s`, which is what JavaScript's
      `length` counts: a character outside the Basic Multilingual Plane takes two. */
  function Utf16Length(s: string): (n: nat)
    ensures n == |s| + |Filter(s, IsAstral)|
    ensures |s| <= n <= 2 * |s|
    ensures (forall i :: 0 <= i < |s| ==> s[i] as int <= 0xFFFF) ==> n == |s|
  {
    if |s| == 0 then 0
    else (if IsAstral(s[0]) then 2 else 1) + Utf16Length(s[1..])
  }

  /** A character outside the Basic Multilingual Plane, which UTF-16 stores as a surrogate pair. */
  predicate IsAstral(c: char) {
    c as int > 0xFFFF
  }

  /** JavaScript `x || fallback` where `x` is a string or `undefined`:
      the empty string is falsy, like `undefined`. */
  function OrElse(x: Option<string>, fallback: string): (r: string)
    ensures x.Some? && x.value != "" ==> r == x.value
    ensures x.None? || x.value == "" ==> r == fallback
  {
    if x.Some? && x.value != "" then x.value else fallback
  }

  /** Looking up a key of a map that may be missing. */
  function Get<K, V>(m: map<K, V>, k: K): (r: Option<V>)
    ensures r.Some? <==> k in m
    ensures r.Some? ==> r.value == m[k]
  {
    if k in m then Some(m[k]) else None
  }

  /** Indexing a JavaScript array: an index out of range gives `undefined`. */
  function At<T>(s: seq<T>, i: int): (r: Option<T>)
    ensures r.Some? <==> 0 <= i < |s|
    ensures r.Some? ==> r.value == s[i]
  {
    if 0 <= i < |s| then Some(s[i]) else None
  }

  /** `a` can be obtained from `b` by deleting elements, without reordering. */
  ghost predicate IsSubsequence<T>(a: seq<T>, b: seq<T>)
    decreases |b|
  {
    |a| == 0 || (|b| > 0 && ((a[0] == b[0] && IsSubsequence(a[1..], b[1..])) || IsSubsequence(a, b[1..])))
  }

  /** Every prefix of a sequence is a subsequence of it. */
  lemma {:induction false} PrefixIsSubsequence<T>(p: seq<T>, s: seq<T>)
    requires IsPrefix(p, s)
    ensures IsSubsequence(p, s)
    decreases |s|
  {
    if |p| > 0 {
      assert p[0] == s[0];
      PrefixIsSubsequence(p[1..], s[1..]);
    }
  }

  /** The subsequence relation is transitive. */
  lemma {:induction false} SubsequenceTransitive<T>(a: seq<T>, b: seq<T>, c: seq<T>)
    requires IsSubsequence(a, b) && IsSubsequence(b, c)
    ensures IsSubsequence(a, c)
    decreases |c|
  {
    if |a| == 0 {
    } else if |b| > 0 && a[0] == b[0] && IsSubsequence(a[1..], b[1..]) {
      if b[0] == c[0] && IsSubsequence(b[1..], c[1..]) {
        SubsequenceTransitive(a[1..], b[1..], c[1..]);
      } else {
        SubsequenceTransitive(a, b, c[1..]);
      }
    } else {
      if b[0] == c[0] && IsSubsequence(b[1..], c[1..]) {
        SubsequenceTransitive(a, b[1..], c[1..]);
      } else {
        SubsequenceTransitive(a, b, c[1..]);
      }
    }
  }

  /** JavaScript `array.filter(p)`: keeps exactly the elements satisfying `p`,
      each as many times as it occurs, in their original order. */
  function Filter<T(==,!new)>(s: seq<T>, p: T -> bool): (r: seq<T>)
    ensures |r| <= |s|
    ensures forall x :: x in r <==> x in s && p(x)
    ensures forall x :: multiset(r)[x] == if p(x) then multiset(s)[x] else 0
    ensures IsSubsequence(r, s)
  {
    if |s| == 0 then []
    else
      var rest := Filter(s[1..], p);
      assert s == [s[0]] + s[1..];
      assert multiset(s) == multiset{s[0]} + multiset(s[1..]);
      if p(s[0]) then
        var r := [s[0]] + rest;
        assert r[1..] == rest;
        r
      else
        rest
  }

  /** Filtering with a predicate every element satisfies keeps the sequence. */
  lemma {:induction false} FilterAll<T(!new)>(s: seq<T>, p: T -> bool)
    requires forall x :: x in s ==> p(x)
    ensures Filter(s, p) == s
  {
    if |s| > 0 {
      FilterAll(s[1..], p);
      assert s == [s[0]] + s[1..];
    }
  }

  /** Filtering with two predicates that agree on every element gives the same result. */
  lemma {:induction false} FilterCongruent<T(!new)>(s: seq<T>, p: T -> bool, q: T -> bool)
    requires forall x :: x in s ==> p(x) == q(x)
    ensures Filter(s, p) == Filter(s, q)
  {
    if |s| > 0 {
      FilterCongruent(s[1..], p, q);
    }
  }

  /** JavaScript `array.slice(0, end)`: a negative `end` counts from the back. */
  function SliceTo<T>(s: seq<T>, end: int): (r: seq<T>)
    ensures |r| <= |s|
    ensures r == s[..|r|]
    ensures 0 <= end ==> |r| == Min(end, |s|)
    ensures end < 0 ==> |r| == Max(|s| + end, 0)
  {
    var k := if end < 0 then Max(|s| + end, 0) else Min(end, |s|);
    s[..k]
  }
}
