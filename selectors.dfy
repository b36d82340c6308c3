/**
 * `extractValidSelectors`: the CSS class selectors of a page's markup, built
 * from its `class="…"` attributes, without repeats, at most ten of them.
 */
module Selectors {
  import opened Strings
  import opened RegexScan

  /** `.slice(0, 10)`: how many selectors are kept. */
  const SelectorLimit := 10

  lemma ClassMatchLenIsMatcher()
    ensures IsMatcher(ClassMatchLen)
  {
  }

  /** A span whose captured value, between the opening and the closing quote, is non-empty and quote-free. */
  predicate HoldsValue(html: string, sp: Span) {
    sp.start + |ClassOpen| < sp.end - 1 && sp.end <= |html|
    && html[sp.start + |ClassOpen|..sp.end - 1] != [] && '"' !in html[sp.start + |ClassOpen|..sp.end - 1]
  }

  /** The value captured by `([^"]+)` in a match. */
  lemma ClassSpan(html: string, sp: Span)
    requires sp.start < sp.end <= |html| && sp.end - sp.start == ClassMatchLen(html[sp.start..])
    ensures HoldsValue(html, sp)
  {
    var t := html[sp.start..];
    var u := t[..sp.end - sp.start];
    assert ClassMatchLen(t) > 0;
    assert IsClassAttribute(u);
    assert u == html[sp.start..sp.end];
    assert u[|ClassOpen|..|u| - 1] == html[sp.start + |ClassOpen|..sp.end - 1];
  }

  /** Each span of the scan holds a non-empty, quote-free class value. */
  lemma ClassSpansHoldValues(html: string)
    ensures var spans := Scan(ClassMatchLen, html);
      forall k :: 0 <= k < |spans| ==> HoldsValue(html, spans[k])
  {
    ClassMatchLenIsMatcher();
    var spans := Scan(ClassMatchLen, html);
    ScanSpansAreMatches(ClassMatchLen, html);
    forall k | 0 <= k < |spans| ensures HoldsValue(html, spans[k]) {
      ClassSpan(html, spans[k]);
    }
  }

  /** The class value of a span. */
  function ValueOf(html: string, sp: Span): (v: string)
    requires HoldsValue(html, sp)
    ensures v != [] && '"' !in v
  {
    html[sp.start + |ClassOpen|..sp.end - 1]
  }

  /** `match[1]` for every match of `/class="([^"]+)"/g`, in order. */
  function ClassValues(html: string): (r: seq<string>)
    ensures var spans := Scan(ClassMatchLen, html);
      |r| == |spans|
      && forall k :: 0 <= k < |r| ==>
        spans[k].start + |ClassOpen| < spans[k].end - 1
        && r[k] == html[spans[k].start + |ClassOpen|..spans[k].end - 1]
        && r[k] != [] && '"' !in r[k]
  {
    ClassMatchLenIsMatcher();
    ClassSpansHoldValues(html);
    var spans := Scan(ClassMatchLen, html);
    seq(|spans|, k requires 0 <= k < |spans| => ValueOf(html, spans[k]))
  }

  /** Prepending a non-whitespace character keeps a string free of whitespace. */
  lemma NoWhitespaceCons(c: char, s: string)
    requires !IsWhitespace(c) && NoWhitespace(s)
    ensures NoWhitespace([c] + s)
  {
    assert forall j :: 0 <= j < |[c] + s| ==> ([c] + s)[j] == if j == 0 then c else s[j - 1];
  }

  /** `v.replace(/\s+/g, '.')`: every maximal run of whitespace becomes one `.`. */
  function CollapseWhitespace(v: string): (r: string)
    ensures NoWhitespace(r)
    ensures |r| <= |v|
    decreases |v|
  {
    if v == [] then []
    else if IsWhitespace(v[0]) then
      var rest := CollapseWhitespace(TrimStart(v[1..]));
      NoWhitespaceCons('.', rest);
      ['.'] + rest
    else
      var rest := CollapseWhitespace(v[1..]);
      NoWhitespaceCons(v[0], rest);
      [v[0]] + rest
  }

  /** Text without whitespace is left as it is. */
  lemma {:induction false} CollapseKeepsPlainText(v: string)
    requires NoWhitespace(v)
    ensures CollapseWhitespace(v) == v
    decreases |v|
  {
    if v != [] {
      assert NoWhitespace(v[1..]);
      CollapseKeepsPlainText(v[1..]);
    }
  }

  /**
   * The replacement works run by run: plain text, then a whitespace run, then
   * text that does not continue the run, gives the plain text, one `.`, and
   * the replacement of the rest.
   */
  lemma {:induction false} CollapseRun(a: string, w: string, b: string)
    requires NoWhitespace(a)
    requires w != [] && AllWhitespace(w)
    requires b == [] || !IsWhitespace(b[0])
    ensures CollapseWhitespace(a + w + b) == a + "." + CollapseWhitespace(b)
    decreases |a|
  {
    if a == [] {
      var s := w + b;
      assert a + w + b == s;
      assert s[1..] == w[1..] + b;
      TrimStartOf(w[1..], b);
    } else {
      assert (a + w + b)[0] == a[0];
      assert (a + w + b)[1..] == a[1..] + w + b;
      CollapseRun(a[1..], w, b);
    }
  }

  /** `` `.${v.replace(/\s+/g, '.')}` ``. */
  function ToSelector(v: string): (r: string)
    ensures |r| >= 1 && r[0] == '.' && NoWhitespace(r)
    ensures |r| <= |v| + 1
  {
    var c := CollapseWhitespace(v);
    NoWhitespaceCons('.', c);
    ['.'] + c
  }

  /** A value without whitespace becomes `.` followed by the value. */
  lemma ToSelectorOfPlainValue(v: string)
    requires NoWhitespace(v)
    ensures ToSelector(v) == "." + v
  {
    CollapseKeepsPlainText(v);
  }

  /** `matches.map(...)`: the selector of every class value, in order, repeats included. */
  function SelectorList(values: seq<string>): (r: seq<string>)
    ensures |r| == |values|
    ensures forall k :: 0 <= k < |r| ==> r[k] == ToSelector(values[k])
  {
    seq(|values|, k requires 0 <= k < |values| => ToSelector(values[k]))
  }

  /** No element occurs twice. */
  predicate Distinct(s: seq<string>) {
    forall i, j :: 0 <= i < j < |s| ==> s[i] != s[j]
  }

  /** The index of the first occurrence of `x` in `s`. */
  function FirstIndex(s: seq<string>, x: string): (i: nat)
    requires x in s
    ensures i < |s| && s[i] == x && x !in s[..i]
  {
    if s[0] == x then 0
    else
      var i := 1 + FirstIndex(s[1..], x);
      assert s[..i] == [s[0]] + s[1..][..i - 1];
      i
  }

  /** `[...new Set(s)]`: the elements of `s` without repeats, each where it first occurs. */
  function Dedup(s: seq<string>): (r: seq<string>)
    ensures Distinct(r)
    ensures forall x :: x in r <==> x in s
    ensures |r| <= |s|
  {
    if s == [] then []
    else
      var p := Dedup(s[..|s| - 1]);
      var x := s[|s| - 1];
      assert s == s[..|s| - 1] + [x];
      if x in p then p else p + [x]
  }

  /** A first occurrence inside a prefix is the first occurrence in the whole sequence. */
  lemma FirstIndexOfPrefix(s: seq<string>, n: nat, x: string)
    requires n <= |s| && x in s[..n]
    ensures FirstIndex(s, x) == FirstIndex(s[..n], x)
  {
    var i := FirstIndex(s[..n], x);
    var j := FirstIndex(s, x);
    assert s[..n][..i] == s[..i];
  }

  /** The elements of `r` occur in `s`, and in the order of their first occurrences there. */
  predicate InFirstOrder(s: seq<string>, r: seq<string>) {
    (forall x :: x in r ==> x in s)
    && forall i, j :: 0 <= i < j < |r| ==> FirstIndex(s, r[i]) < FirstIndex(s, r[j])
  }

  /** `Set` iteration order: the kept elements appear in the order of their first occurrences. */
  lemma {:induction false} DedupKeepsFirstOrder(s: seq<string>)
    ensures InFirstOrder(s, Dedup(s))
  {
    if s != [] {
      var n := |s| - 1;
      var p := Dedup(s[..n]);
      var x := s[n];
      DedupKeepsFirstOrder(s[..n]);
      assert s == s[..n] + [x];
      forall y | y in p ensures y in s && FirstIndex(s, y) == FirstIndex(s[..n], y) < n {
        FirstIndexOfPrefix(s, n, y);
      }
      if x !in p {
        var r := p + [x];
        assert Dedup(s) == r;
        assert x !in s[..n];
        assert FirstIndex(s, x) == n;
        forall i, j | 0 <= i < j < |r| ensures FirstIndex(s, r[i]) < FirstIndex(s, r[j]) {
          assert r[i] == p[i];
          FirstIndexOfPrefix(s, n, p[i]);
          if j < |p| {
            assert r[j] == p[j];
            FirstIndexOfPrefix(s, n, p[j]);
            assert FirstIndex(s[..n], p[i]) < FirstIndex(s[..n], p[j]);
          }
        }
      }
    }
  }

  /** A distinct sequence has as many elements as its set. */
  lemma {:induction false} DistinctCardinality(s: seq<string>)
    requires Distinct(s)
    ensures |set x | x in s| == |s|
  {
    if s != [] {
      var t := s[1..];
      assert Distinct(t);
      DistinctCardinality(t);
      assert (set x | x in s) == {s[0]} + (set x | x in t);
      assert s[0] !in t;
    }
  }

  /** A sequence whose every element is `x` reduces to `[x]`. */
  lemma {:induction false} DedupConstant(s: seq<string>, x: string)
    requires s != []
    requires forall k :: 0 <= k < |s| ==> s[k] == x
    ensures Dedup(s) == [x]
  {
    if |s| > 1 {
      DedupConstant(s[..|s| - 1], x);
    }
  }

  /** The body of `extractValidSelectors` once the class values are captured. */
  function SelectorsOfValues(values: seq<string>): (r: seq<string>)
    ensures |r| <= SelectorLimit
    ensures Distinct(r)
    ensures forall x :: x in r ==> x in SelectorList(values)
    ensures forall x :: x in r ==> |x| >= 1 && x[0] == '.' && NoWhitespace(x)
    ensures |r| <= |Dedup(SelectorList(values))| && r == Dedup(SelectorList(values))[..|r|]
  {
    var u := Dedup(SelectorList(values));
    if |u| <= SelectorLimit then
      assert u[..|u|] == u;
      u
    else
      var r := u[..SelectorLimit];
      assert forall x :: x in r ==> x in u;
      r
  }

  /** Every returned selector is the selector of one of the class values. */
  lemma SelectorsComeFromValues(values: seq<string>, x: string)
    requires x in SelectorsOfValues(values)
    ensures exists k :: 0 <= k < |values| && x == ToSelector(values[k])
  {
    var all := SelectorList(values);
    var k :| 0 <= k < |all| && all[k] == x;
  }

  /** The returned selectors keep the order in which they first appear. */
  lemma SelectorsKeepFirstOrder(values: seq<string>)
    ensures InFirstOrder(SelectorList(values), SelectorsOfValues(values))
  {
    var all := SelectorList(values);
    DedupKeepsFirstOrder(all);
    var u := Dedup(all);
    var r := SelectorsOfValues(values);
    assert r == u[..|r|];
    forall i, j | 0 <= i < j < |r| ensures FirstIndex(all, r[i]) < FirstIndex(all, r[j]) {
      assert r[i] == u[i] && r[j] == u[j];
    }
  }

  /**
   * The ten kept are the first ten to appear: a selector that first appears
   * before a returned one is itself returned.
   */
  lemma EarlierSelectorsKept(values: seq<string>, x: string, y: string)
    requires x in SelectorList(values) && y in SelectorsOfValues(values)
    requires FirstIndex(SelectorList(values), x) < FirstIndex(SelectorList(values), y)
    ensures x in SelectorsOfValues(values)
  {
    var all := SelectorList(values);
    var u := Dedup(all);
    var r := SelectorsOfValues(values);
    DedupKeepsFirstOrder(all);
    var a := FirstIndex(u, x);
    var b := FirstIndex(r, y);
    assert u[b] == y;
    if b < a {
      FirstOrderAt(all, u, b, a);
    }
    assert r[a] == x;
  }

  lemma FirstOrderAt(s: seq<string>, r: seq<string>, i: nat, j: nat)
    requires InFirstOrder(s, r) && i < j < |r|
    ensures FirstIndex(s, r[i]) < FirstIndex(s, r[j])
  {
  }

  /** With at most ten distinct selectors, every one of them is returned. */
  lemma FewSelectorsAllKept(values: seq<string>)
    requires |set x | x in SelectorList(values)| <= SelectorLimit
    ensures forall x :: x in SelectorList(values) ==> x in SelectorsOfValues(values)
  {
    var all := SelectorList(values);
    var u := Dedup(all);
    DistinctCardinality(u);
    assert (set x | x in u) == (set x | x in all);
  }

  /** With ten or more distinct selectors, exactly ten are returned. */
  lemma ManySelectorsTenKept(values: seq<string>)
    requires |set x | x in SelectorList(values)| >= SelectorLimit
    ensures |SelectorsOfValues(values)| == SelectorLimit
  {
    var all := SelectorList(values);
    var u := Dedup(all);
    DistinctCardinality(u);
    assert (set x | x in u) == (set x | x in all);
  }

  /** The same class value, however often it is repeated, yields exactly one selector. */
  lemma RepeatedValueOneSelector(values: seq<string>, v: string)
    requires values != []
    requires forall k :: 0 <= k < |values| ==> values[k] == v
    ensures SelectorsOfValues(values) == [ToSelector(v)]
  {
    DedupConstant(SelectorList(values), ToSelector(v));
  }

  /** `extractValidSelectors(html)`. */
  function ExtractValidSelectors(html: string): (r: seq<string>)
    ensures |r| <= SelectorLimit
    ensures Distinct(r)
    ensures forall x :: x in r ==> exists k :: 0 <= k < |ClassValues(html)| && x == ToSelector(ClassValues(html)[k])
    ensures forall x :: x in r ==> |x| >= 1 && x[0] == '.' && NoWhitespace(x)
    ensures var u := Dedup(SelectorList(ClassValues(html))); |r| <= |u| && r == u[..|r|]
  {
    var values := ClassValues(html);
    var r := SelectorsOfValues(values);
    forall x | x in r ensures exists k :: 0 <= k < |values| && x == ToSelector(values[k]) {
      SelectorsComeFromValues(values, x);
    }
    r
  }

  /** Markup without `class="` has no class value. */
  lemma NoClassOpenAt(html: string, q: nat)
    requires q < |html| && !Contains(html, ClassOpen)
    ensures ClassMatchLen(html[q..]) == 0
  {
    if ClassMatchLen(html[q..]) > 0 {
      assert html[q..][..7] == html[q..q + 7];
      assert OccursAt(html, ClassOpen, q);
    }
  }

  /** Markup without `class="` yields no selector. */
  lemma NoClassAttributeNoSelectors(html: string)
    requires !Contains(html, ClassOpen)
    ensures ClassValues(html) == [] && ExtractValidSelectors(html) == []
  {
    ClassMatchLenIsMatcher();
    forall q: nat | q < |html| ensures ClassMatchLen(html[q..]) == 0 {
      NoClassOpenAt(html, q);
    }
    ScanNoMatch(ClassMatchLen, html);
  }
}
