/**
 * `extractUrls`: the URLs of an issue body, in order, without links back to
 * the issue tracker's own domain.
 */
module Urls {
  import opened Strings
  import opened RegexScan

  const TrackerDomain := "github.com"

  lemma UrlMatchLenIsMatcher()
    ensures IsMatcher(UrlMatchLen)
  {
  }

  /** A match is a URL token followed by whitespace or by the end of the text. */
  lemma UrlSpan(text: string, sp: Span)
    requires sp.start < sp.end <= |text| && sp.end - sp.start == UrlMatchLen(text[sp.start..])
    ensures IsUrlToken(text[sp.start..sp.end]) && (sp.end == |text| || IsWhitespace(text[sp.end]))
  {
    assert text[sp.start..][..sp.end - sp.start] == text[sp.start..sp.end];
  }

  /** Each span of the scan covers a URL token followed by whitespace or the end. */
  lemma UrlSpansAreTokens(text: string)
    ensures var spans := Scan(UrlMatchLen, text);
      forall k :: 0 <= k < |spans| ==>
        IsUrlToken(text[spans[k].start..spans[k].end])
        && (spans[k].end == |text| || IsWhitespace(text[spans[k].end]))
  {
    UrlMatchLenIsMatcher();
    var spans := Scan(UrlMatchLen, text);
    ScanSpansAreMatches(UrlMatchLen, text);
    forall k | 0 <= k < |spans|
      ensures IsUrlToken(text[spans[k].start..spans[k].end])
        && (spans[k].end == |text| || IsWhitespace(text[spans[k].end]))
    {
      UrlSpan(text, spans[k]);
    }
  }

  /** The matches of `/(https?:\/\/[^\s]+)/g` in `text`: `text.match(urlRegex) || []`. */
  function UrlMatches(text: string): (r: seq<string>)
    ensures var spans := Scan(UrlMatchLen, text);
      |r| == |spans|
      && forall k :: 0 <= k < |r| ==>
        r[k] == text[spans[k].start..spans[k].end] && IsUrlToken(r[k])
        && (spans[k].end == |text| || IsWhitespace(text[spans[k].end]))
  {
    UrlMatchLenIsMatcher();
    UrlSpansAreTokens(text);
    var spans := Scan(UrlMatchLen, text);
    seq(|spans|, k requires 0 <= k < |spans| => text[spans[k].start..spans[k].end])
  }

  /** `.filter(url => !url.includes("github.com"))`. */
  function DropTrackerLinks(urls: seq<string>): (r: seq<string>)
    ensures |r| <= |urls|
    ensures forall u :: u in r <==> u in urls && !Contains(u, TrackerDomain)
  {
    if urls == [] then []
    else
      var rest := DropTrackerLinks(urls[1..]);
      assert forall u :: u in urls <==> u == urls[0] || u in urls[1..];
      if Contains(urls[0], TrackerDomain) then rest else [urls[0]] + rest
  }

  /** `extractUrls(text)`. */
  function ExtractUrls(text: string): (r: seq<string>)
    ensures forall u :: u in r ==> IsUrlToken(u) && NoWhitespace(u) && !Contains(u, TrackerDomain)
  {
    DropTrackerLinks(UrlMatches(text))
  }

  /** A match is returned exactly when it is not a tracker link. */
  lemma ExtractUrlsKeepsNonTrackerMatches(text: string, u: string)
    ensures u in ExtractUrls(text) <==> u in UrlMatches(text) && !Contains(u, TrackerDomain)
  {
  }

  /** Filtering keeps the order of what survives: it distributes over concatenation. */
  lemma {:induction false} DropTrackerLinksAppend(a: seq<string>, b: seq<string>)
    ensures DropTrackerLinks(a + b) == DropTrackerLinks(a) + DropTrackerLinks(b)
  {
    if a == [] {
      assert a + b == b;
    } else {
      assert (a + b)[0] == a[0];
      assert (a + b)[1..] == a[1..] + b;
      DropTrackerLinksAppend(a[1..], b);
    }
  }

  /** A list with no tracker link passes the filter unchanged. */
  lemma {:induction false} DropTrackerLinksKeepsOthers(urls: seq<string>)
    requires forall k :: 0 <= k < |urls| ==> !Contains(urls[k], TrackerDomain)
    ensures DropTrackerLinks(urls) == urls
  {
    if urls != [] {
      DropTrackerLinksKeepsOthers(urls[1..]);
    }
  }

  /** A match begins with one of the two schemes. */
  lemma UrlMatchHasScheme(s: string)
    requires UrlMatchLen(s) > 0
    ensures StartsWith(s, HttpScheme) || StartsWith(s, HttpsScheme)
  {
    var n := UrlMatchLen(s);
    if n > 8 { assert s[..n][..8] == s[..8]; }
    assert s[..n][..7] == s[..7];
  }

  /** A text without `http://` or `https://` has no URL. */
  lemma NoSchemeNoUrls(text: string)
    requires !Contains(text, HttpScheme) && !Contains(text, HttpsScheme)
    ensures UrlMatches(text) == [] && ExtractUrls(text) == []
  {
    UrlMatchLenIsMatcher();
    forall q: nat | q < |text| ensures UrlMatchLen(text[q..]) == 0 {
      NoSchemeAt(text, q);
    }
    ScanNoMatch(UrlMatchLen, text);
  }

  lemma NoSchemeAt(text: string, q: nat)
    requires q < |text|
    requires !Contains(text, HttpScheme) && !Contains(text, HttpsScheme)
    ensures UrlMatchLen(text[q..]) == 0
  {
    if UrlMatchLen(text[q..]) > 0 {
      UrlMatchHasScheme(text[q..]);
      if StartsWith(text[q..], HttpsScheme) {
        assert text[q..][..8] == text[q..q + 8];
        assert OccursAt(text, HttpsScheme, q);
      } else {
        assert text[q..][..7] == text[q..q + 7];
        assert OccursAt(text, HttpScheme, q);
      }
    }
  }

  /** A whole URL token followed by whitespace or the end is matched whole. */
  lemma UrlMatchLenOfToken(u: string, b: string)
    requires IsUrlToken(u)
    requires b == [] || IsWhitespace(b[0])
    ensures UrlMatchLen(u + b) == |u|
  {
    var s := u + b;
    assert s[..|u|] == u;
    UrlMatchLenLongest(s);
  }

  /** Every match begins with the letter `h` of its scheme. */
  lemma UrlMatchesStartWithH()
    ensures forall x :: UrlMatchLen(x) > 0 ==> x[0] == 'h'
  {
    forall x | UrlMatchLen(x) > 0 ensures x[0] == 'h' {
      UrlMatchHasScheme(x);
    }
  }

  /** With no letter `h` outside the match at `i`, nothing else matches. */
  lemma UrlMatchesOnlyInside(text: string, i: nat, n: nat)
    requires i < |text| && 0 < n && UrlMatchLen(text[i..]) == n
    requires forall q :: 0 <= q < i ==> text[q] != 'h'
    requires forall q :: i + n <= q < |text| ==> text[q] != 'h'
    ensures forall q: nat :: MatchesAt(UrlMatchLen, text, q) ==> i <= q < i + n
  {
    UrlMatchesStartWithH();
    forall q: nat | MatchesAt(UrlMatchLen, text, q) ensures i <= q < i + n {
      assert text[q..][0] == text[q];
    }
  }

  /** A URL match outside which nothing matches is the only match. */
  lemma ScanOfUrlAt(text: string, i: nat, n: nat)
    requires i < |text| && 0 < n && UrlMatchLen(text[i..]) == n
    requires forall q: nat :: MatchesAt(UrlMatchLen, text, q) ==> i <= q < i + n
    ensures Scan(UrlMatchLen, text) == [Span(i, i + n)]
  {
    UrlMatchLenIsMatcher();
    ScanSingle(UrlMatchLen, text, i, n);
  }

  /** The scan finds only the URL token `u` in `a + u + b`. */
  lemma ScanOfSingleUrl(a: string, u: string, b: string)
    requires 'h' !in a && 'h' !in b
    requires IsUrlToken(u)
    requires b == [] || IsWhitespace(b[0])
    ensures Scan(UrlMatchLen, a + u + b) == [Span(|a|, |a| + |u|)]
  {
    var text := a + u + b;
    UrlAfterPrefix(a, u, b);
    NoHOutside(a, u, b);
    UrlMatchesOnlyInside(text, |a|, |u|);
    ScanOfUrlAt(text, |a|, |u|);
  }

  lemma UrlAfterPrefix(a: string, u: string, b: string)
    requires IsUrlToken(u)
    requires b == [] || IsWhitespace(b[0])
    ensures |a| < |a + u + b| && UrlMatchLen((a + u + b)[|a|..]) == |u| > 0
  {
    assert (a + u + b)[|a|..] == u + b;
    UrlMatchLenOfToken(u, b);
  }

  lemma NoHOutside(a: string, u: string, b: string)
    requires 'h' !in a && 'h' !in b
    ensures var text := a + u + b;
      (forall q :: 0 <= q < |a| ==> text[q] != 'h')
      && (forall q :: |a| + |u| <= q < |text| ==> text[q] != 'h')
  {
    var text := a + u + b;
    forall q | 0 <= q < |a| ensures text[q] != 'h' {
      assert text[q] == a[q];
    }
    forall q | |a| + |u| <= q < |text| ensures text[q] != 'h' {
      assert text[q] == b[q - |a| - |u|];
    }
  }

  /**
   * A URL token between text without the letter `h` and either the end of the
   * text or a whitespace character is the one URL found.
   */
  lemma SingleUrl(a: string, u: string, b: string)
    requires 'h' !in a && 'h' !in b
    requires IsUrlToken(u)
    requires b == [] || IsWhitespace(b[0])
    ensures UrlMatches(a + u + b) == [u]
  {
    ScanOfSingleUrl(a, u, b);
    assert (a + u + b)[|a|..|a| + |u|] == u;
  }

  /** A worked example: an issue body naming one page outside the tracker. */
  const ExamplePrefix := "Banner overlaps footer. See "
  const ExampleUrl := "https://example.com/page"
  const ExampleSuffix := " for repro."

  lemma ExampleUrlIsToken()
    ensures IsUrlToken(ExampleUrl) && !Contains(ExampleUrl, TrackerDomain)
  {
    assert StartsWith(ExampleUrl, HttpsScheme);
    assert NoWhitespace(ExampleUrl);
    if Contains(ExampleUrl, TrackerDomain) {
      ContainsChars(ExampleUrl, TrackerDomain, 'b');
    }
  }

  /** The example body yields exactly its one URL. */
  lemma ExampleIssueBody()
    ensures ExtractUrls(ExamplePrefix + ExampleUrl + ExampleSuffix) == [ExampleUrl]
  {
    assert 'h' !in ExamplePrefix && 'h' !in ExampleSuffix;
    assert IsWhitespace(ExampleSuffix[0]);
    ExampleUrlIsToken();
    SingleUrl(ExamplePrefix, ExampleUrl, ExampleSuffix);
    DropTrackerLinksKeepsOthers([ExampleUrl]);
  }
}
