/** String operations the service relies on: Python's `str.strip()` with no
    argument, searching for a fixed substring, and the "only deletes
    characters" relation (being a subsequence). */
module Text {
  import opened Wrappers

  // ---------------------------------------------------------------------------
  // Whitespace and strip()

  /** The characters for which Python's `str.isspace()` holds, the set that
      `str.strip()` with no argument removes. */
  predicate IsSpace(c: char) {
    c == ' ' || ('\t' <= c <= '\r') || ('\U{1c}' <= c <= '\U{1f}')
    || c == '\U{85}' || c == '\U{a0}' || c == '\U{1680}'
    || ('\U{2000}' <= c <= '\U{200a}') || c == '\U{2028}' || c == '\U{2029}'
    || c == '\U{202f}' || c == '\U{205f}' || c == '\U{3000}'
  }

  /** The same set, listed character by character. */
  const PythonWhitespace: set<char> := {
    '\t', '\n', '\U{0b}', '\U{0c}', '\r', '\U{1c}', '\U{1d}', '\U{1e}', '\U{1f}', ' ',
    '\U{85}', '\U{a0}', '\U{1680}',
    '\U{2000}', '\U{2001}', '\U{2002}', '\U{2003}', '\U{2004}', '\U{2005}',
    '\U{2006}', '\U{2007}', '\U{2008}', '\U{2009}', '\U{200a}',
    '\U{2028}', '\U{2029}', '\U{202f}', '\U{205f}', '\U{3000}'
  }

  /** `IsSpace` holds for exactly the listed characters. */
  lemma IsSpaceExactly(c: char)
    ensures IsSpace(c) <==> c in PythonWhitespace
  {
  }

  predicate AllSpace(s: string) {
    forall i :: 0 <= i < |s| ==> IsSpace(s[i])
  }

  /** No whitespace at either end: what `strip()` leaves. */
  predicate Stripped(s: string) {
    s == [] || (!IsSpace(s[0]) && !IsSpace(s[|s| - 1]))
  }

  /** The index of the first non-whitespace character at or after `i`
      (`|s|` if there is none). */
  function SkipSpaces(s: string, i: nat): (n: nat)
    requires i <= |s|
    ensures i <= n <= |s|
    ensures forall k :: i <= k < n ==> IsSpace(s[k])
    ensures n == |s| || !IsSpace(s[n])
    decreases |s| - i
  {
    if i < |s| && IsSpace(s[i]) then SkipSpaces(s, i + 1) else i
  }

  /** The index just past the last non-whitespace character before `j`
      (`0` if there is none). */
  function SkipSpacesBack(s: string, j: nat): (n: nat)
    requires j <= |s|
    ensures n <= j
    ensures forall k :: n <= k < j ==> IsSpace(s[k])
    ensures n == 0 || !IsSpace(s[n - 1])
  {
    if j > 0 && IsSpace(s[j - 1]) then SkipSpacesBack(s, j - 1) else j
  }

  /** Drops the leading whitespace: the result is a suffix of `s`, all that was
      dropped is whitespace, and the result does not start with whitespace. */
  function TrimStart(s: string): (r: string)
    ensures |r| <= |s| && r == s[|s| - |r|..]
    ensures forall k :: 0 <= k < |s| - |r| ==> IsSpace(s[k])
    ensures r == [] || !IsSpace(r[0])
  {
    s[SkipSpaces(s, 0)..]
  }

  /** Drops the trailing whitespace: the result is a prefix of `s`, all that was
      dropped is whitespace, and the result does not end with whitespace. */
  function TrimEnd(s: string): (r: string)
    ensures |r| <= |s| && r == s[..|r|]
    ensures forall k :: |r| <= k < |s| ==> IsSpace(s[k])
    ensures r == [] || !IsSpace(r[|r| - 1])
  {
    s[..SkipSpacesBack(s, |s|)]
  }

  /** Python's `s.strip()`: the result has no whitespace at either end
      (`StripShape` says what was removed). */
  function Strip(s: string): (r: string)
    ensures |r| <= |s|
    ensures Stripped(r)
  {
    TrimEnd(TrimStart(s))
  }

  /** `strip()` keeps a piece `s[i..j]` of `s` and removes only whitespace:
      all of `s[..i]` and all of `s[j..]`. */
  lemma StripShape(s: string) returns (i: nat, j: nat)
    ensures i <= j <= |s| && Strip(s) == s[i..j]
    ensures forall k :: 0 <= k < i ==> IsSpace(s[k])
    ensures forall k :: j <= k < |s| ==> IsSpace(s[k])
  {
    var t := TrimStart(s);
    var r := TrimEnd(t);
    i := |s| - |t|;
    j := i + |r|;
    assert t == s[i..];
    SliceOfSuffix(s, i, |r|);
    forall k | j <= k < |s| ensures IsSpace(s[k]) {
      assert s[k] == t[k - i];
    }
  }

  /** The first `n` characters of the suffix from `i` are the slice from `i` to `i + n`. */
  lemma SliceOfSuffix(s: string, i: nat, n: nat)
    requires i + n <= |s|
    ensures s[i..][..n] == s[i..i + n]
  {
  }

  /** `strip()` yields the empty string exactly when `s` is all whitespace. */
  lemma StripEmptyIff(s: string)
    ensures Strip(s) == [] <==> AllSpace(s)
  {
    var i, j := StripShape(s);
    if Strip(s) == [] {
      assert i == j;
    } else {
      assert s[i] == Strip(s)[0];
    }
  }

  /** `strip()` leaves a string without surrounding whitespace as it is. */
  lemma StripOfStripped(s: string)
    requires Stripped(s)
    ensures Strip(s) == s
  {
    assert SkipSpaces(s, 0) == 0;
    assert TrimStart(s) == s by { assert s[0..] == s; }
    assert SkipSpacesBack(s, |s|) == |s|;
    assert TrimEnd(s) == s by { assert s[..|s|] == s; }
  }

  /** `strip()` is idempotent. */
  lemma StripIdempotent(s: string)
    ensures Strip(Strip(s)) == Strip(s)
  {
    StripOfStripped(Strip(s));
  }

  // ---------------------------------------------------------------------------
  // Occurrences of a fixed substring

  /** `p` occurs in `s` starting at index `i`. */
  predicate OccursAt(s: string, p: string, i: int) {
    0 <= i && i + |p| <= |s| && s[i..i + |p|] == p
  }

  ghost predicate Contains(s: string, p: string) {
    exists i :: OccursAt(s, p, i)
  }

  predicate StartsWith(s: string, p: string) {
    |p| <= |s| && s[..|p|] == p
  }

  /** The first index at or after `from` where `p` occurs in `s`, if any. */
  function Find(s: string, p: string, from: nat): (r: Option<nat>)
    decreases |s| - from
    ensures r.Some? ==> from <= r.value && OccursAt(s, p, r.value)
    ensures forall k :: from <= k && (r.None? || k < r.value) ==> !OccursAt(s, p, k)
  {
    if from + |p| > |s| then None
    else if OccursAt(s, p, from) then Some(from)
    else Find(s, p, from + 1)
  }

  /** An occurrence with none before it from `from` on is the one `Find` returns. */
  lemma FindIsFirst(s: string, p: string, from: nat, j: nat)
    requires from <= j && OccursAt(s, p, j)
    requires forall k :: from <= k < j ==> !OccursAt(s, p, k)
    ensures Find(s, p, from) == Some(j)
  {
  }

  /** Occurrences past a prefix `a` of `a + b` are the occurrences in `b`, shifted. */
  lemma OccursAtShift(a: string, b: string, p: string, k: int)
    requires 0 <= k
    ensures OccursAt(a + b, p, |a| + k) <==> OccursAt(b, p, k)
  {
    if 0 <= k && k + |p| <= |b| {
      assert (a + b)[|a| + k..|a| + k + |p|] == b[k..k + |p|];
    }
  }

  /** An occurrence inside a prefix `a` of `a + b` is an occurrence in `a`. */
  lemma OccursAtPrefix(a: string, b: string, p: string, k: int)
    requires 0 <= k && k + |p| <= |a|
    ensures OccursAt(a + b, p, k) <==> OccursAt(a, p, k)
  {
    assert (a + b)[k..k + |p|] == a[k..k + |p|];
  }

  /** `p` is border-free in the way the tags are: its first character occurs
      nowhere else in it. */
  predicate HeadUnique(p: string) {
    |p| > 0 && forall d :: 0 < d < |p| ==> p[d] != p[0]
  }

  /** When `rest` starts with the first character of a head-unique `p` and `a`
      does not contain `p`, no occurrence of `p` in `a + rest` starts inside `a`:
      one starting in `a` either lies in `a` or would have to match `p[0]` at a
      later position of `p`. */
  lemma NoStraddle(a: string, rest: string, p: string, k: int)
    requires HeadUnique(p) && !Contains(a, p)
    requires rest != [] && rest[0] == p[0]
    requires 0 <= k < |a|
    ensures !OccursAt(a + rest, p, k)
  {
    if k + |p| <= |a| {
      OccursAtPrefix(a, rest, p, k);
      assert !OccursAt(a, p, k);
    } else if k + |p| <= |a + rest| {
      var d := |a| - k;
      assert (a + rest)[k..k + |p|][d] == rest[0] != p[d];
    }
  }

  /** The same fact at the start of `a + rest`, for non-empty `a`. */
  lemma NotStartingWith(a: string, rest: string, p: string)
    requires HeadUnique(p) && !Contains(a, p)
    requires a != [] && rest != [] && rest[0] == p[0]
    ensures !StartsWith(a + rest, p)
  {
    NoStraddle(a, rest, p, 0);
    var s := a + rest;
    if |p| <= |s| { assert s[..|p|] == s[0..|p|]; }
  }

  /** A non-empty string is its head followed by its tail, also in front of more text. */
  lemma HeadTail(a: string, x: string)
    requires a != []
    ensures [a[0]] + (a[1..] + x) == a + x
  {
    assert a == [a[0]] + a[1..];
  }

  /** A string is its three slices at `i` and `j` put back together. */
  lemma SplitThree(s: string, i: nat, j: nat)
    requires i <= j <= |s|
    ensures s == s[..i] + s[i..j] + s[j..]
  {
  }

  /** Appending to a concatenation of four parts is appending to its first part. */
  lemma Regroup(a: string, b: string, c: string, d: string, e: string)
    ensures a + b + c + d + e == a + (b + c + d + e)
  {
  }

  /** Removing the first character keeps a string free of `p`. */
  lemma NotContainsTail(s: string, p: string)
    requires s != [] && !Contains(s, p)
    ensures !Contains(s[1..], p)
  {
    if Contains(s[1..], p) {
      var i :| OccursAt(s[1..], p, i);
      assert s == [s[0]] + s[1..];
      OccursAtShift([s[0]], s[1..], p, i);
    }
  }

  /** A string free of `p` has no occurrence of `p` at its start. */
  lemma NotContainsNotStart(s: string, p: string)
    requires !Contains(s, p)
    ensures !StartsWith(s, p)
  {
    if StartsWith(s, p) { assert OccursAt(s, p, 0); }
  }

  /** Both parts of a string free of `p` are free of `p`. */
  lemma NotContainsParts(a: string, b: string, p: string)
    requires !Contains(a + b, p)
    ensures !Contains(a, p) && !Contains(b, p)
  {
    forall i | 0 <= i && i + |p| <= |a| ensures !OccursAt(a, p, i) {
      OccursAtPrefix(a, b, p, i);
    }
    forall i | 0 <= i ensures !OccursAt(b, p, i) {
      OccursAtShift(a, b, p, i);
    }
  }

  // ---------------------------------------------------------------------------
  // Subsequences: the result of deleting characters

  /** `a` is obtained from `b` by deleting some characters. */
  predicate IsSubseq(a: string, b: string)
    decreases |b|
  {
    a == [] || (b != [] && ((a[0] == b[0] && IsSubseq(a[1..], b[1..])) || IsSubseq(a, b[1..])))
  }

  lemma {:induction false} SubseqRefl(a: string)
    ensures IsSubseq(a, a)
    decreases |a|
  {
    if a != [] { SubseqRefl(a[1..]); }
  }

  /** Keeping a character on both sides preserves the relation. */
  lemma SubseqCons(c: char, a: string, b: string)
    requires IsSubseq(a, b)
    ensures IsSubseq([c] + a, [c] + b)
  {
    assert ([c] + a)[1..] == a;
    assert ([c] + b)[1..] == b;
  }

  /** Deleting a whole prefix of `b` keeps `a` a subsequence. */
  lemma {:induction false} SubseqDropPrefix(a: string, p: string, b: string)
    requires IsSubseq(a, b)
    ensures IsSubseq(a, p + b)
    decreases |p|
  {
    if p != [] {
      SubseqDropPrefix(a, p[1..], b);
      assert (p + b)[1..] == p[1..] + b;
      assert IsSubseq(a, (p + b)[1..]);
    } else {
      assert p + b == b;
    }
  }

  /** Deleting a whole suffix of `b` keeps `a` a subsequence. */
  lemma {:induction false} SubseqDropSuffix(a: string, b: string, q: string)
    requires IsSubseq(a, b)
    ensures IsSubseq(a, b + q)
    decreases |b|
  {
    if a != [] {
      assert (b + q)[0] == b[0];
      assert (b + q)[1..] == b[1..] + q;
      if a[0] == b[0] && IsSubseq(a[1..], b[1..]) {
        SubseqDropSuffix(a[1..], b[1..], q);
      } else {
        SubseqDropSuffix(a, b[1..], q);
      }
    }
  }

  /** Deleting characters twice is deleting characters. */
  lemma {:induction false} SubseqTrans(a: string, b: string, c: string)
    requires IsSubseq(a, b) && IsSubseq(b, c)
    ensures IsSubseq(a, c)
    decreases |c|
  {
    if a != [] {
      if b[0] == c[0] && IsSubseq(b[1..], c[1..]) {
        if a[0] == b[0] && IsSubseq(a[1..], b[1..]) {
          SubseqTrans(a[1..], b[1..], c[1..]);
        } else {
          SubseqTrans(a, b[1..], c[1..]);
        }
      } else {
        SubseqTrans(a, b, c[1..]);
      }
    }
  }

  /** A piece of a string is a subsequence of it. */
  lemma SubseqInfix(a: string, x: string, b: string)
    ensures IsSubseq(x, a + x + b)
  {
    SubseqRefl(x);
    SubseqDropSuffix(x, x, b);
    SubseqDropPrefix(x, a, x + b);
    assert a + (x + b) == a + x + b;
  }

  /** `strip()` only deletes characters. */
  lemma StripSubseq(s: string)
    ensures IsSubseq(Strip(s), s)
  {
    var i, j := StripShape(s);
    SplitThree(s, i, j);
    SubseqInfix(s[..i], s[i..j], s[j..]);
  }
}
