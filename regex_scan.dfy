/**
 * The URL and class-attribute patterns of the pipeline,
 * `/(https?:\/\/[^\s]+)/g` and `/class="([^"]+)"/g`, whose every match is
 * collected, as explicit scanners: a match-length function per pattern, and
 * one left-to-right scan, generic in the match-length function, that collects
 * non-overlapping matches the way `String.prototype.match` and `matchAll` do
 * with the `g` flag.
 */
module RegexScan {
  import opened Strings

  /** A match `text[start..end]`. */
  datatype Span = Span(start: nat, end: nat)

  const HttpScheme := "http://"
  const HttpsScheme := "https://"
  const ClassOpen := "class=\""

  /** Length of the run of non-whitespace characters that starts `s` (`[^\s]*`, greedy). */
  function NonWhitespaceRun(s: string): (n: nat)
    ensures n <= |s| && NoWhitespace(s[..n]) && (n == |s| || IsWhitespace(s[n]))
  {
    if s == [] || IsWhitespace(s[0]) then 0
    else
      var n := 1 + NonWhitespaceRun(s[1..]);
      assert s[..n] == [s[0]] + s[1..][..n - 1];
      n
  }

  /** Length of the run of characters other than `"` that starts `s` (`[^"]*`, greedy). */
  function NonQuoteRun(s: string): (n: nat)
    ensures n <= |s| && '"' !in s[..n] && (n == |s| || s[n] == '"')
  {
    if s == [] || s[0] == '"' then 0
    else
      var n := 1 + NonQuoteRun(s[1..]);
      assert s[..n] == [s[0]] + s[1..][..n - 1];
      n
  }

  /** A string the whole of which `https?:\/\/[^\s]+` matches. */
  ghost predicate IsUrlToken(u: string) {
    ((StartsWith(u, HttpsScheme) && |u| > |HttpsScheme|) || (StartsWith(u, HttpScheme) && |u| > |HttpScheme|))
    && NoWhitespace(u)
  }

  /** A string the whole of which `class="([^"]+)"` matches. */
  ghost predicate IsClassAttribute(u: string) {
    |u| >= |ClassOpen| + 2 && StartsWith(u, ClassOpen) && u[|u| - 1] == '"'
    && '"' !in u[|ClassOpen|..|u| - 1]
  }

  lemma SchemesHaveNoWhitespace()
    ensures NoWhitespace(HttpScheme) && NoWhitespace(HttpsScheme)
  {
  }

  /** A scheme followed by a non-empty run of non-whitespace characters is a URL token. */
  lemma SchemeRunIsToken(s: string, scheme: string)
    requires scheme == HttpsScheme || scheme == HttpScheme
    requires StartsWith(s, scheme) && |s| > |scheme| && !IsWhitespace(s[|scheme|])
    ensures var n := |scheme| + NonWhitespaceRun(s[|scheme|..]);
      n <= |s| && IsUrlToken(s[..n]) && (n == |s| || IsWhitespace(s[n]))
  {
    var k := |scheme|;
    var n := k + NonWhitespaceRun(s[k..]);
    var u := s[..n];
    assert s[k..][0] == s[k];
    assert u[..k] == scheme;
    SchemesHaveNoWhitespace();
    forall j | 0 <= j < |u| ensures !IsWhitespace(u[j]) {
      if j < k {
        assert u[j] == u[..k][j];
      } else {
        assert u[j] == s[k..][..n - k][j - k];
      }
    }
  }

  /**
   * Length of the match of `https?:\/\/[^\s]+` at the start of `s`, 0 when
   * there is none.
   */
  function UrlMatchLen(s: string): (n: nat)
    ensures n <= |s|
    ensures n > 0 ==> IsUrlToken(s[..n]) && (n == |s| || IsWhitespace(s[n]))
  {
    if StartsWith(s, HttpsScheme) && |s| > 8 && !IsWhitespace(s[8]) then
      SchemeRunIsToken(s, HttpsScheme);
      8 + NonWhitespaceRun(s[8..])
    else if StartsWith(s, HttpScheme) && |s| > 7 && !IsWhitespace(s[7]) then
      SchemeRunIsToken(s, HttpScheme);
      7 + NonWhitespaceRun(s[7..])
    else 0
  }

  /** The match is greedy: no longer prefix of `s` is a URL token, and none at all when there is no match. */
  lemma UrlMatchLenLongest(s: string)
    ensures forall m :: UrlMatchLen(s) < m <= |s| ==> !IsUrlToken(s[..m])
  {
    var n := UrlMatchLen(s);
    forall m | n < m <= |s| ensures !IsUrlToken(s[..m]) {
      if n > 0 {
        assert s[..m][n] == s[n];
      } else {
        if m > 8 { assert s[..m][..8] == s[..8] && s[..m][8] == s[8]; }
        if m > 7 { assert s[..m][..7] == s[..7] && s[..m][7] == s[7]; }
      }
    }
  }

  /**
   * Length of the match of `class="([^"]+)"` at the start of `s`, 0 when there
   * is none.
   */
  function ClassMatchLen(s: string): (n: nat)
    ensures n <= |s|
    ensures n > 0 ==> IsClassAttribute(s[..n])
  {
    if StartsWith(s, ClassOpen) then
      var k := NonQuoteRun(s[7..]);
      if k > 0 && 7 + k < |s| then
        var n := 7 + k + 1;
        assert s[..n][7..n - 1] == s[7..][..k];
        n
      else 0
    else 0
  }

  /**
   * The value runs to the first `"` after the opening quote, so the match is
   * the only prefix of `s` the pattern matches whole, and there is none when
   * the match length is 0.
   */
  lemma ClassMatchLenUnique(s: string)
    ensures forall m :: 0 < m <= |s| && IsClassAttribute(s[..m]) ==> m == ClassMatchLen(s)
  {
    var n := ClassMatchLen(s);
    forall m | 0 < m <= |s| && IsClassAttribute(s[..m]) ensures m == n {
      assert s[..7] == s[..m][..7];
      var k := NonQuoteRun(s[7..]);
      assert s[..m][7..m - 1] == s[7..][..m - 8];
      assert s[7..][m - 8] == s[..m][m - 1];
    }
  }

  /**
   * A match-length function of a pattern: how many characters the pattern
   * matches at the start of a string, 0 for no match.
   */
  ghost predicate IsMatcher(m: string -> nat) {
    forall s :: m(s) <= |s|
  }

  /** The pattern whose match lengths `m` gives matches `text` at index `q`. */
  ghost predicate MatchesAt(m: string -> nat, text: string, q: nat) {
    q < |text| && m(text[q..]) > 0
  }

  /** Some span of `spans` contains index `q`. */
  ghost predicate Covered(spans: seq<Span>, q: int) {
    exists k :: 0 <= k < |spans| && spans[k].start <= q < spans[k].end
  }

  /** Every span lies at or after `i` and is a whole match, of the length `m` gives there. */
  ghost predicate AreMatches(m: string -> nat, text: string, i: nat, r: seq<Span>) {
    forall k :: 0 <= k < |r| ==>
      i <= r[k].start < r[k].end <= |text| && r[k].end - r[k].start == m(text[r[k].start..])
  }

  /** The spans come in text order and do not overlap. */
  ghost predicate InTextOrder(r: seq<Span>) {
    forall k, l :: 0 <= k < l < |r| ==> r[k].end <= r[l].start
  }

  /** Every index at or after `i` where the pattern matches lies inside some span. */
  ghost predicate CoversMatches(m: string -> nat, text: string, i: nat, r: seq<Span>) {
    forall q: nat :: i <= q && MatchesAt(m, text, q) ==> Covered(r, q)
  }

  /**
   * `r` is the sequence of leftmost-first, non-overlapping matches in `text`
   * from index `i` on. These three conditions determine `r` uniquely
   * (`ScanFromDetermined`).
   */
  ghost predicate IsScanFrom(m: string -> nat, text: string, i: nat, r: seq<Span>) {
    AreMatches(m, text, i, r) && InTextOrder(r) && CoversMatches(m, text, i, r)
  }

  lemma AreMatchesCons(m: string -> nat, text: string, i: nat, rest: seq<Span>)
    requires i < |text| && 0 < m(text[i..]) <= |text| - i
    requires AreMatches(m, text, i + m(text[i..]), rest)
    ensures AreMatches(m, text, i, [Span(i, i + m(text[i..]))] + rest)
  {
  }

  lemma InTextOrderCons(x: Span, rest: seq<Span>)
    requires forall k :: 0 <= k < |rest| ==> x.end <= rest[k].start
    requires InTextOrder(rest)
    ensures InTextOrder([x] + rest)
  {
    var r := [x] + rest;
    forall k, l | 0 <= k < l < |r| ensures r[k].end <= r[l].start {
      assert r[l] == rest[l - 1];
      if k > 0 {
        assert r[k] == rest[k - 1];
      }
    }
  }

  lemma CoversMatchesCons(m: string -> nat, text: string, i: nat, n: nat, rest: seq<Span>)
    requires 0 < n
    requires CoversMatches(m, text, i + n, rest)
    ensures CoversMatches(m, text, i, [Span(i, i + n)] + rest)
  {
    var r := [Span(i, i + n)] + rest;
    forall q: nat | i <= q && MatchesAt(m, text, q) ensures Covered(r, q) {
      if q < i + n {
        assert r[0].start <= q < r[0].end;
      } else {
        var k :| 0 <= k < |rest| && rest[k].start <= q < rest[k].end;
        assert r[k + 1] == rest[k];
      }
    }
  }

  lemma ScanFromCons(m: string -> nat, text: string, i: nat, rest: seq<Span>)
    requires IsMatcher(m)
    requires i < |text| && m(text[i..]) > 0
    requires IsScanFrom(m, text, i + m(text[i..]), rest)
    ensures IsScanFrom(m, text, i, [Span(i, i + m(text[i..]))] + rest)
  {
    var n := m(text[i..]);
    assert n <= |text[i..]|;
    AreMatchesCons(m, text, i, rest);
    InTextOrderCons(Span(i, i + n), rest);
    CoversMatchesCons(m, text, i, n, rest);
  }

  lemma ScanFromSkip(m: string -> nat, text: string, i: nat, rest: seq<Span>)
    requires i < |text| && m(text[i..]) == 0
    requires IsScanFrom(m, text, i + 1, rest)
    ensures IsScanFrom(m, text, i, rest)
  {
    assert !MatchesAt(m, text, i);
  }

  /**
   * The global scan from index `i` on: try to match at the current index; on a
   * match record it and resume after it, otherwise move one character on.
   */
  function ScanFrom(m: string -> nat, text: string, i: nat): seq<Span>
    requires IsMatcher(m)
    requires i <= |text|
    decreases |text| - i
  {
    if i == |text| then []
    else
      var n := m(text[i..]);
      if n > 0 then [Span(i, i + n)] + ScanFrom(m, text, i + n)
      else ScanFrom(m, text, i + 1)
  }

  /** The scan finds exactly the leftmost-first non-overlapping matches from `i` on. */
  lemma {:induction false} ScanFromIsScan(m: string -> nat, text: string, i: nat)
    requires IsMatcher(m)
    requires i <= |text|
    decreases |text| - i
    ensures IsScanFrom(m, text, i, ScanFrom(m, text, i))
  {
    if i < |text| {
      var n := m(text[i..]);
      if n > 0 {
        assert ScanFrom(m, text, i) == [Span(i, i + n)] + ScanFrom(m, text, i + n);
        ScanFromIsScan(m, text, i + n);
        ScanFromCons(m, text, i, ScanFrom(m, text, i + n));
      } else {
        assert ScanFrom(m, text, i) == ScanFrom(m, text, i + 1);
        ScanFromIsScan(m, text, i + 1);
        ScanFromSkip(m, text, i, ScanFrom(m, text, i + 1));
      }
    }
  }

  /** Any sequence of leftmost-first non-overlapping matches from `i` on is the scan from `i`. */
  lemma {:induction false} ScanFromUnique(m: string -> nat, text: string, i: nat, r: seq<Span>)
    requires IsMatcher(m)
    requires i <= |text| && IsScanFrom(m, text, i, r)
    decreases |text| - i, 1
    ensures r == ScanFrom(m, text, i)
  {
    if i == |text| {
      NoSpansAtEnd(m, text, r);
    } else if m(text[i..]) > 0 {
      ScanFromUniqueAfterMatch(m, text, i, r);
    } else {
      ScanFromUniqueAfterMiss(m, text, i, r);
    }
  }

  lemma {:induction false} ScanFromUniqueAfterMatch(m: string -> nat, text: string, i: nat, r: seq<Span>)
    requires IsMatcher(m)
    requires i < |text| && m(text[i..]) > 0 && IsScanFrom(m, text, i, r)
    decreases |text| - i, 0
    ensures r == ScanFrom(m, text, i)
  {
    var n := m(text[i..]);
    FirstSpanAt(m, text, i, r);
    ScanFromTail(m, text, i, n, r);
    var tail := r[1..];
    ScanFromUnique(m, text, i + n, tail);
    calc {
      r;
    ==
      [r[0]] + tail;
    ==
      [Span(i, i + n)] + ScanFrom(m, text, i + n);
    ==
      ScanFrom(m, text, i);
    }
  }

  lemma {:induction false} ScanFromUniqueAfterMiss(m: string -> nat, text: string, i: nat, r: seq<Span>)
    requires IsMatcher(m)
    requires i < |text| && m(text[i..]) == 0 && IsScanFrom(m, text, i, r)
    decreases |text| - i, 0
    ensures r == ScanFrom(m, text, i)
  {
    ScanFromStep(m, text, i, r);
    assert ScanFrom(m, text, i) == ScanFrom(m, text, i + 1);
    ScanFromUnique(m, text, i + 1, r);
  }

  /** No match starts at or after the end of the text. */
  lemma NoSpansAtEnd(m: string -> nat, text: string, r: seq<Span>)
    requires AreMatches(m, text, |text|, r)
    ensures r == []
  {
    if |r| > 0 {
      FirstSpanInside(m, text, |text|, r);
      assert false;
    }
  }

  /** The first of a sequence of matches from `i` on starts inside the text. */
  lemma FirstSpanInside(m: string -> nat, text: string, i: nat, r: seq<Span>)
    requires AreMatches(m, text, i, r) && |r| > 0
    ensures i <= r[0].start < |text|
  {
  }

  /** One step of the scan: a match at `i` is the first span, and the rest are the matches after it. */
  lemma ScanFromStep(m: string -> nat, text: string, i: nat, r: seq<Span>)
    requires i < |text| && IsScanFrom(m, text, i, r)
    ensures var n := m(text[i..]);
      (n > 0 ==> |r| > 0 && r[0] == Span(i, i + n) && IsScanFrom(m, text, i + n, r[1..]))
      && (n == 0 ==> IsScanFrom(m, text, i + 1, r))
  {
    var n := m(text[i..]);
    if n > 0 {
      FirstSpanAt(m, text, i, r);
      ScanFromTail(m, text, i, n, r);
    } else {
      ScanFromAfterMiss(m, text, i, r);
    }
  }

  /** Where the pattern matches at `i`, the first span is that match. */
  lemma FirstSpanAt(m: string -> nat, text: string, i: nat, r: seq<Span>)
    requires i < |text| && m(text[i..]) > 0 && IsScanFrom(m, text, i, r)
    ensures |r| > 0 && r[0] == Span(i, i + m(text[i..]))
  {
    assert MatchesAt(m, text, i);
    var k :| 0 <= k < |r| && r[k].start <= i < r[k].end;
    assert i <= r[0].start;
  }

  /** After a first match `[i, i + n)`, the remaining spans are the matches from `i + n` on. */
  lemma ScanFromTail(m: string -> nat, text: string, i: nat, n: nat, r: seq<Span>)
    requires IsScanFrom(m, text, i, r) && |r| > 0 && r[0] == Span(i, i + n)
    ensures IsScanFrom(m, text, i + n, r[1..])
  {
    var t := r[1..];
    forall k | 0 <= k < |t| ensures i + n <= t[k].start {
      assert t[k] == r[k + 1];
    }
    forall q: nat | i + n <= q && MatchesAt(m, text, q) ensures Covered(t, q) {
      assert Covered(r, q);
      var k :| 0 <= k < |r| && r[k].start <= q < r[k].end;
      assert k > 0;
      assert t[k - 1] == r[k];
    }
  }

  /** Where the pattern does not match at `i`, the matches from `i` are the matches from `i + 1`. */
  lemma ScanFromAfterMiss(m: string -> nat, text: string, i: nat, r: seq<Span>)
    requires i < |text| && m(text[i..]) == 0 && IsScanFrom(m, text, i, r)
    ensures IsScanFrom(m, text, i + 1, r)
  {
    forall k | 0 <= k < |r| ensures i + 1 <= r[k].start {
      assert r[k].end - r[k].start == m(text[r[k].start..]);
    }
  }

  /** The three conditions of `IsScanFrom` determine the spans uniquely. */
  lemma ScanFromDetermined(m: string -> nat, text: string, i: nat, r1: seq<Span>, r2: seq<Span>)
    requires IsMatcher(m)
    requires i <= |text| && IsScanFrom(m, text, i, r1) && IsScanFrom(m, text, i, r2)
    ensures r1 == r2
  {
    ScanFromUnique(m, text, i, r1);
    ScanFromUnique(m, text, i, r2);
  }

  /** All matches in `text`, in order (`text.match(re)` / `text.matchAll(re)` with the `g` flag). */
  function Scan(m: string -> nat, text: string): (r: seq<Span>)
    requires IsMatcher(m)
    ensures forall k :: 0 <= k < |r| ==> r[k].start < r[k].end <= |text|
  {
    ScanFromIsScan(m, text, 0);
    ScanFrom(m, text, 0)
  }

  /** The scan is the sequence of leftmost-first non-overlapping matches of the whole text. */
  lemma ScanIsScan(m: string -> nat, text: string)
    requires IsMatcher(m)
    ensures IsScanFrom(m, text, 0, Scan(m, text))
  {
    ScanFromIsScan(m, text, 0);
  }

  /** Each span of the scan is a whole match, of the length the pattern gives at its start. */
  lemma ScanSpansAreMatches(m: string -> nat, text: string)
    requires IsMatcher(m)
    ensures AreMatches(m, text, 0, Scan(m, text))
  {
    ScanIsScan(m, text);
  }

  /** A text in which the pattern matches nowhere yields no span. */
  lemma ScanNoMatch(m: string -> nat, text: string)
    requires IsMatcher(m)
    requires forall q: nat :: !MatchesAt(m, text, q)
    ensures Scan(m, text) == []
  {
    var r := Scan(m, text);
    ScanIsScan(m, text);
    if r != [] {
      assert MatchesAt(m, text, r[0].start);
    }
  }

  /** When the pattern matches only inside one match, the scan finds that match alone. */
  lemma ScanSingle(m: string -> nat, text: string, i: nat, n: nat)
    requires IsMatcher(m)
    requires i < |text| && 0 < n && m(text[i..]) == n
    requires forall q: nat :: MatchesAt(m, text, q) ==> i <= q < i + n
    ensures Scan(m, text) == [Span(i, i + n)]
  {
    var spans := Scan(m, text);
    ScanIsScan(m, text);
    assert MatchesAt(m, text, i);
    var k :| 0 <= k < |spans| && spans[k].start <= i < spans[k].end;
    assert MatchesAt(m, text, spans[k].start);
    assert |spans| == 1 by {
      if |spans| > 1 {
        var l := if k == 0 then 1 else 0;
        assert MatchesAt(m, text, spans[l].start);
      }
    }
  }
}
