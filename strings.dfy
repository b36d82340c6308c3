/**
 * String helpers with the meaning JavaScript gives them: the whitespace class
 * used by the regular-expression escape `\s` and by `String.prototype.trim`,
 * prefix and suffix tests, substring search and trimming.
 */
module Strings {
  import opened Options

  /**
   * ECMAScript WhiteSpace and LineTerminator code points. `\s` in a regular
   * expression and `trim()` both use exactly this set.
   */
  predicate IsWhitespace(c: char) {
    c == '\t' || c == '\n' || c == '\U{000B}' || c == '\U{000C}' || c == '\r' || c == ' '
    || c == '\U{00A0}' || c == '\U{1680}' || ('\U{2000}' <= c <= '\U{200A}')
    || c == '\U{2028}' || c == '\U{2029}' || c == '\U{202F}' || c == '\U{205F}'
    || c == '\U{3000}' || c == '\U{FEFF}'
  }

  predicate NoWhitespace(s: string) {
    forall k :: 0 <= k < |s| ==> !IsWhitespace(s[k])
  }

  predicate AllWhitespace(s: string) {
    forall k :: 0 <= k < |s| ==> IsWhitespace(s[k])
  }

  /** Neither end is whitespace: what `trim()` returns. */
  predicate IsTrimmed(s: string) {
    s == [] || (!IsWhitespace(s[0]) && !IsWhitespace(s[|s| - 1]))
  }

  predicate StartsWith(s: string, p: string) {
    |p| <= |s| && s[..|p|] == p
  }

  predicate EndsWith(s: string, p: string) {
    |p| <= |s| && s[|s| - |p|..] == p
  }

  /** `t` occurs in `s` starting at index `i`. */
  predicate OccursAt(s: string, t: string, i: nat) {
    i + |t| <= |s| && s[i..i + |t|] == t
  }

  /** `s.includes(t)`. */
  predicate Contains(s: string, t: string) {
    exists i | 0 <= i <= |s| - |t| :: OccursAt(s, t, i)
  }

  /** A string that does not contain `t` has no occurrence of `t` at any index. */
  lemma NotContainsAt(s: string, t: string, i: nat)
    requires !Contains(s, t)
    ensures !OccursAt(s, t, i)
  {
  }

  /**
   * The first occurrence of `t` at or after `i`, or `None`: where a regular
   * expression that starts with the literal `t` finds its leftmost match.
   */
  function FindFrom(s: string, t: string, i: nat): (r: Option<nat>)
    decreases |s| - i
    ensures r.Some? ==> i <= r.value && OccursAt(s, t, r.value)
    ensures forall q: nat :: i <= q && (r.None? || q < r.value) ==> !OccursAt(s, t, q)
  {
    if i + |t| > |s| then None
    else if OccursAt(s, t, i) then Some(i)
    else FindFrom(s, t, i + 1)
  }

  lemma FindFromStart(s: string, t: string)
    ensures FindFrom(s, t, 0).Some? <==> Contains(s, t)
  {
    var r := FindFrom(s, t, 0);
    if r.Some? {
      assert OccursAt(s, t, r.value);
    }
  }

  /** An occurrence at `i` with none between `j` and `i` is what the search from `j` finds. */
  lemma FindFromIs(s: string, t: string, j: nat, i: nat)
    requires j <= i && OccursAt(s, t, i)
    requires forall q: nat :: j <= q < i ==> !OccursAt(s, t, q)
    ensures FindFrom(s, t, j) == Some(i)
  {
  }

  /** A slice of a slice is a slice. */
  lemma SliceOfSlice(s: string, x: nat, y: nat, p: nat, q: nat)
    requires x <= y <= |s| && p <= q <= y - x
    ensures s[x..y][p..q] == s[x + p..x + q]
  {
    var a, b := s[x..y][p..q], s[x + p..x + q];
    forall k | 0 <= k < |a| ensures a[k] == b[k] {
    }
  }

  /** An occurrence inside a slice is an occurrence in the whole string. */
  lemma OccursInSlice(s: string, t: string, i: nat, j: nat, q: nat)
    requires i <= j <= |s| && OccursAt(s[i..j], t, q)
    ensures OccursAt(s, t, i + q) && i + q + |t| <= j
  {
    var sl := s[i..j];
    forall k | 0 <= k < |t| ensures t[k] == s[i + q + k] {
      assert sl[q..q + |t|][k] == t[k];
    }
    assert s[i + q..i + q + |t|] == t;
  }

  /** A slice that no occurrence of `t` starts inside does not contain `t`. */
  lemma SliceWithout(s: string, t: string, i: nat, j: nat)
    requires |t| > 0 && i <= j <= |s|
    requires forall q: nat :: i <= q < j ==> !OccursAt(s, t, q)
    ensures !Contains(s[i..j], t)
  {
    if Contains(s[i..j], t) {
      var q :| 0 <= q <= |s[i..j]| - |t| && OccursAt(s[i..j], t, q);
      OccursInSlice(s, t, i, j, q);
    }
  }

  /** Trimming cannot create an occurrence. */
  lemma TrimKeepsAbsent(s: string, t: string)
    requires !Contains(s, t)
    ensures !Contains(Trim(s), t)
  {
    var r := Trim(s);
    var a, b :| 0 <= a <= b <= |s| && r == s[a..b] && AllWhitespace(s[..a]) && AllWhitespace(s[b..]);
    if Contains(r, t) {
      var q :| 0 <= q <= |r| - |t| && OccursAt(r, t, q);
      OccursInSlice(s, t, a, b, q);
    }
  }

  /** Every character of an occurrence of `t` occurs in `s`. */
  lemma ContainsChars(s: string, t: string, c: char)
    requires Contains(s, t) && c in t
    ensures c in s
  {
    var i :| 0 <= i <= |s| - |t| && OccursAt(s, t, i);
    var k :| 0 <= k < |t| && t[k] == c;
    assert s[i + k] == s[i..i + |t|][k];
  }

  /** `r` is `s` without its leading whitespace. */
  predicate FrontCut(s: string, r: string) {
    |r| <= |s| && r == s[|s| - |r|..] && AllWhitespace(s[..|s| - |r|]) && (r == [] || !IsWhitespace(r[0]))
  }

  /** `r` is `s` without its trailing whitespace. */
  predicate BackCut(s: string, r: string) {
    |r| <= |s| && r == s[..|r|] && AllWhitespace(s[|r|..]) && (r == [] || !IsWhitespace(r[|r| - 1]))
  }

  /** The first half of `trim()`: drop the leading whitespace. */
  function TrimStart(s: string): (r: string)
    ensures FrontCut(s, r)
  {
    if s != [] && IsWhitespace(s[0]) then
      var r := TrimStart(s[1..]);
      assert s[..|s| - |r|] == [s[0]] + s[1..][..|s| - 1 - |r|];
      r
    else s
  }

  /** The second half of `trim()`: drop the trailing whitespace. */
  function TrimEnd(s: string): (r: string)
    ensures BackCut(s, r)
  {
    if s != [] && IsWhitespace(s[|s| - 1]) then
      var r := TrimEnd(s[..|s| - 1]);
      assert s[|r|..] == s[..|s| - 1][|r|..] + [s[|s| - 1]];
      r
    else s
  }

  /**
   * `s.trim()`: the result is the slice of `s` left once the whitespace at
   * both ends is removed.
   */
  function Trim(s: string): (r: string)
    ensures IsTrimmed(r)
    ensures exists i, j :: 0 <= i <= j <= |s| && r == s[i..j] && AllWhitespace(s[..i]) && AllWhitespace(s[j..])
  {
    var a := TrimStart(s);
    var r := TrimEnd(a);
    CutsShape(s, a, r);
    r
  }

  /**
   * Cutting leading whitespace off `s`, giving `a`, then trailing whitespace
   * off `a`, giving `r`, leaves a trimmed slice of `s` between two runs of
   * whitespace.
   */
  lemma CutsShape(s: string, a: string, r: string)
    requires FrontCut(s, a) && BackCut(a, r)
    ensures IsTrimmed(r)
    ensures |s| - |a| + |r| <= |s| && r == s[|s| - |a|..|s| - |a| + |r|] && AllWhitespace(s[|s| - |a| + |r|..])
    ensures exists i, j :: 0 <= i <= j <= |s| && r == s[i..j] && AllWhitespace(s[..i]) && AllWhitespace(s[j..])
  {
    var i := |s| - |a|;
    var j := i + |r|;
    forall k | 0 <= k < |r| ensures r[k] == s[i + k] {
      assert r[k] == a[k];
    }
    forall k | 0 <= k < |s| - j ensures IsWhitespace(s[j..][k]) {
      assert s[j..][k] == a[|r|..][k];
    }
    assert r != [] ==> r[0] == a[0];
    assert r == s[i..j];
  }

  /** The bounds of the slice that `trim()` keeps. */
  lemma TrimBounds(s: string) returns (i: nat, j: nat)
    ensures i <= j <= |s| && Trim(s) == s[i..j] && AllWhitespace(s[..i]) && AllWhitespace(s[j..])
  {
    var a := TrimStart(s);
    var r := TrimEnd(a);
    assert Trim(s) == r;
    CutsShape(s, a, r);
    i, j := |s| - |a|, |s| - |a| + |r|;
    assert AllWhitespace(s[..i]);
    assert r == s[i..j] && AllWhitespace(s[j..]);
  }

  lemma {:induction false} TrimStartOf(a: string, c: string)
    requires AllWhitespace(a)
    requires c == [] || !IsWhitespace(c[0])
    ensures TrimStart(a + c) == c
  {
    if a == [] {
      assert a + c == c;
    } else {
      assert (a + c)[0] == a[0];
      assert (a + c)[1..] == a[1..] + c;
      TrimStartOf(a[1..], c);
    }
  }

  lemma {:induction false} TrimEndOf(c: string, b: string)
    requires AllWhitespace(b)
    requires c == [] || !IsWhitespace(c[|c| - 1])
    ensures TrimEnd(c + b) == c
  {
    if b == [] {
      assert c + b == c;
    } else {
      assert (c + b)[|c + b| - 1] == b[|b| - 1];
      assert (c + b)[..|c + b| - 1] == c + b[..|b| - 1];
      TrimEndOf(c, b[..|b| - 1]);
    }
  }

  /** Text that starts and ends with a non-whitespace part needs no trimming. */
  lemma TrimmedBetween(a: string, m: string, b: string)
    requires a != [] && b != [] && !IsWhitespace(a[0]) && !IsWhitespace(b[|b| - 1])
    ensures IsTrimmed(a + m + b)
  {
    var c := a + m + b;
    assert c == a + (m + b);
    assert c[0] == a[0];
    assert c[|c| - 1] == b[|b| - 1];
  }

  /** Trimming removes exactly the surrounding whitespace and nothing else. */
  lemma TrimOf(a: string, c: string, b: string)
    requires AllWhitespace(a) && AllWhitespace(b) && IsTrimmed(c)
    ensures Trim(a + c + b) == c
  {
    if c == [] {
      assert a + c + b == (a + b) + [];
      TrimStartOf(a + b, []);
    } else {
      assert a + c + b == a + (c + b);
      TrimStartOf(a, c + b);
      TrimEndOf(c, b);
    }
  }

  /** A string with no whitespace at either end is its own trim. */
  lemma TrimOfTrimmed(s: string)
    requires IsTrimmed(s)
    ensures Trim(s) == s
  {
    assert [] + s + [] == s;
    TrimOf([], s, []);
  }

  /** `trim()` leaves a trimmed string alone, so trimming twice is trimming once. */
  lemma TrimIdempotent(s: string)
    ensures Trim(Trim(s)) == Trim(s)
  {
    TrimOfTrimmed(Trim(s));
  }

  /** Whitespace appended to a string does not change its trim. */
  lemma TrimOfPadded(c: string, w: string)
    requires AllWhitespace(w)
    ensures Trim(c + w) == Trim(c)
  {
    var i, j := TrimBounds(c);
    PaddedPieces(c, i, j, w);
    WhitespaceAppend(c[j..], w);
    TrimOf(c[..i], c[i..j], c[j..] + w);
  }

  /** A string cut at two points, with `w` appended, regrouped around its middle piece. */
  lemma PaddedPieces(c: string, i: nat, j: nat, w: string)
    requires i <= j <= |c|
    ensures c + w == c[..i] + c[i..j] + (c[j..] + w)
  {
    assert c == c[..i] + c[i..j] + c[j..];
  }

  /** Whitespace followed by whitespace is whitespace. */
  lemma WhitespaceAppend(u: string, w: string)
    requires AllWhitespace(u) && AllWhitespace(w)
    ensures AllWhitespace(u + w)
  {
    forall k | 0 <= k < |u + w| ensures IsWhitespace((u + w)[k]) {
      if k < |u| {
        assert (u + w)[k] == u[k];
      } else {
        assert (u + w)[k] == w[k - |u|];
      }
    }
  }

  /** Trimming keeps everything from a non-whitespace character at `a` to one at `e - 1`. */
  lemma TrimKeepsMiddle(c: string, a: nat, e: nat) returns (i: nat, j: nat)
    requires a < e <= |c| && !IsWhitespace(c[a]) && !IsWhitespace(c[e - 1])
    ensures i <= a && e <= j <= |c| && Trim(c) == c[i..j] && AllWhitespace(c[j..])
  {
    i, j := TrimBounds(c);
    assert forall k :: 0 <= k < i ==> c[..i][k] == c[k];
    assert forall k :: j <= k < |c| ==> c[j..][k - j] == c[k];
  }

  /** A slice cut at two inner points is the concatenation of the three pieces. */
  lemma SliceAcross(c: string, i: nat, a: nat, e: nat, j: nat)
    requires i <= a <= e <= j <= |c|
    ensures c[i..j] == c[i..a] + c[a..e] + c[e..j]
  {
  }

  /** A character missing from a string is missing from each of its slices. */
  lemma NotInSlice(x: char, s: string, i: nat, j: nat)
    requires i <= j <= |s| && x !in s
    ensures x !in s[i..j]
  {
    assert forall k :: 0 <= k < j - i ==> s[i..j][k] == s[i + k];
  }
}
