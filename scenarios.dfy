/**
 * `generateTestStepsAndScenarios` after the model has replied: cutting the
 * three `### <title>:` sections out of the reply, with the sentinels used
 * when a section is missing or the call failed.
 */
module Scenarios {
  import opened Options
  import opened Strings

  const StepsTitle := "Detailed Test Steps for UI Testing"
  const PositiveTitle := "Positive Test Scenarios"
  const NegativeTitle := "Negative Test Scenarios"

  /** What `extractSection` returns for a section that is not there. */
  const NoData := "No data generated."
  /** The test steps reported when the model call throws. */
  const FailedSteps := "Failed to generate test steps."
  /** The lookahead `(?=###|$)` ends a section at the next `###`. */
  const SectionMark := "###"

  /** `` `### ${sectionTitle}:` ``. */
  function Heading(title: string): (h: string)
    ensures |h| == |title| + 5 && h[..4] == "### " && h[|h| - 1] == ':'
    ensures h[4..|h| - 1] == title
  {
    "### " + title + ":"
  }

  /**
   * `content` holds its first `### <title>:` at `i`, and the section body runs
   * from the end of that heading to `end`: the next `###` or the end of the text.
   */
  ghost predicate SectionBounds(content: string, title: string, i: nat, end: nat) {
    var h := Heading(title);
    OccursAt(content, h, i) && (forall q: nat :: q < i ==> !OccursAt(content, h, q))
    && i + |h| <= end <= |content|
    && (end == |content| || OccursAt(content, SectionMark, end))
    && forall q: nat :: i + |h| <= q < end ==> !OccursAt(content, SectionMark, q)
  }

  /** Where the lazy body stops: the first `###` at or after `e`, or the end of the text. */
  function SectionEnd(content: string, e: nat): (end: nat)
    requires e <= |content|
    ensures e <= end <= |content|
    ensures end == |content| || OccursAt(content, SectionMark, end)
    ensures forall q: nat :: e <= q < end ==> !OccursAt(content, SectionMark, q)
  {
    match FindFrom(content, SectionMark, e)
    case None => |content|
    case Some(p) => p
  }

  /** `b` is the trimmed body of the first section titled `title`. */
  ghost predicate IsSection(content: string, title: string, b: string) {
    exists i: nat, end: nat :: SectionBounds(content, title, i, end)
      && b == Trim(content[i + |Heading(title)|..end])
  }

  /** The section that starts at the first heading, at `i`, is bounded as `SectionBounds` says. */
  lemma FirstSectionBounds(content: string, title: string, i: nat)
    requires FindFrom(content, Heading(title), 0) == Some(i)
    ensures i + |Heading(title)| <= |content|
    ensures IsSection(content, title, Trim(content[i + |Heading(title)|..SectionEnd(content, i + |Heading(title)|)]))
  {
    FirstHeadingBounds(content, title, i);
  }

  /** The first heading and the lazy body after it are bounded as `SectionBounds` says. */
  lemma FirstHeadingBounds(content: string, title: string, i: nat)
    requires FindFrom(content, Heading(title), 0) == Some(i)
    ensures i + |Heading(title)| <= |content|
    ensures SectionBounds(content, title, i, SectionEnd(content, i + |Heading(title)|))
  {
    var h := Heading(title);
    assert OccursAt(content, h, i);
    assert forall q: nat :: q < i ==> !OccursAt(content, h, q);
    var e := i + |h|;
    var end := SectionEnd(content, e);
    assert e <= end <= |content|;
  }

  /** What is left of a section body after trimming holds no `###`. */
  lemma SectionBodyHasNoMark(content: string, e: nat)
    requires e <= |content|
    ensures !Contains(Trim(content[e..SectionEnd(content, e)]), SectionMark)
  {
    var end := SectionEnd(content, e);
    SliceWithout(content, SectionMark, e, end);
    TrimKeepsAbsent(content[e..end], SectionMark);
  }

  /** The trimmed body of the section whose heading is the first one, at `i`. */
  function SectionAt(content: string, title: string, i: nat): (b: string)
    requires FindFrom(content, Heading(title), 0) == Some(i)
    ensures IsTrimmed(b) && !Contains(b, SectionMark)
    ensures IsSection(content, title, b)
  {
    FirstSectionBounds(content, title, i);
    var e := i + |Heading(title)|;
    SectionBodyHasNoMark(content, e);
    Trim(content[e..SectionEnd(content, e)])
  }

  /**
   * The first match of `` new RegExp(`### ${title}:[\\s\\S]*?(?=###|$)`, "g") ``
   * with the heading removed and the rest trimmed; `None` when there is no match.
   */
  function FindSection(content: string, title: string): (r: Option<string>)
    ensures r.None? <==> !Contains(content, Heading(title))
    ensures r.Some? ==> IsTrimmed(r.value) && !Contains(r.value, SectionMark)
    ensures r.Some? ==> IsSection(content, title, r.value)
  {
    FindFromStart(content, Heading(title));
    match FindFrom(content, Heading(title), 0)
    case None => None
    case Some(i) => Some(SectionAt(content, title, i))
  }

  /** `extractSection(title)`: the section, or the sentinel when its heading is missing. */
  function ExtractSection(content: string, title: string): (r: string)
    ensures !Contains(content, Heading(title)) ==> r == NoData
    ensures Contains(content, Heading(title)) ==> Some(r) == FindSection(content, title)
    ensures IsTrimmed(r) && !Contains(r, SectionMark)
  {
    NoDataIsPlain();
    match FindSection(content, title)
    case None => NoData
    case Some(b) => b
  }

  /** Neither sentinel is padded or holds a `###`. */
  lemma NoDataIsPlain()
    ensures IsTrimmed(NoData) && !Contains(NoData, SectionMark)
    ensures IsTrimmed(FailedSteps) && !Contains(FailedSteps, SectionMark)
  {
    if Contains(NoData, SectionMark) {
      ContainsChars(NoData, SectionMark, '#');
    }
    if Contains(FailedSteps, SectionMark) {
      ContainsChars(FailedSteps, SectionMark, '#');
    }
  }

  /**
   * The sentinel comes back exactly when the heading is missing or the
   * section itself reads `No data generated.`.
   */
  lemma SentinelExactly(content: string, title: string)
    ensures ExtractSection(content, title) == NoData
      <==> !Contains(content, Heading(title)) || FindSection(content, title) == Some(NoData)
  {
  }

  /**
   * A heading that does not occur earlier in the text, then a body in which
   * no `###` starts, then the end of the text or the next `###`: the section
   * is the trimmed body. No `###` starts in the body when the body holds none
   * and, unless it runs to the end of the text, does not end in `#`.
   */
  lemma SectionOf(pre: string, title: string, body: string, rest: string)
    requires forall q :: 0 <= q < |pre| ==> !OccursAt(pre + Heading(title) + body + rest, Heading(title), q)
    requires !Contains(body, SectionMark) && (rest == [] || body == [] || body[|body| - 1] != '#')
    requires rest == [] || StartsWith(rest, SectionMark)
    ensures FindSection(pre + Heading(title) + body + rest, title) == Some(Trim(body))
  {
    var h := Heading(title);
    var content := pre + h + body + rest;
    var i := |pre|;
    var e := i + |h|;
    var end := e + |body|;
    FourParts(pre, h, body, rest);
    FindFromIs(content, h, 0, i);
    BodyEndsAt(content, e, body, rest);
  }

  /** With no `#` before it, a heading is the first occurrence of itself. */
  lemma PlainPrefix(pre: string, title: string, tail: string)
    requires '#' !in pre
    ensures forall q :: 0 <= q < |pre| ==> !OccursAt(pre + Heading(title) + tail, Heading(title), q)
  {
    var content := pre + Heading(title) + tail;
    assert content[..|pre|] == pre;
    NoHeadingInPlain(content, 0, pre, Heading(title));
  }

  /** No text starting with `#` starts inside a `#`-free stretch of the text. */
  lemma NoHeadingInPlain(content: string, o: nat, b: string, h: string)
    requires o + |b| <= |content| && content[o..o + |b|] == b && '#' !in b
    requires |h| > 0 && h[0] == '#'
    ensures forall q :: o <= q < o + |b| ==> !OccursAt(content, h, q)
  {
    forall q | o <= q < o + |b| ensures !OccursAt(content, h, q) {
      assert content[q] == b[q - o];
      assert q + |h| <= |content| ==> content[q..q + |h|][0] == content[q];
    }
  }

  /** The heading of one title does not start inside the heading of a title with another first letter. */
  lemma NoHeadingInHeading(content: string, o: nat, t1: string, t2: string)
    requires |t1| > 0 && |t2| > 0 && t1[0] != t2[0] && '#' !in t1
    requires o + |Heading(t1)| <= |content| && content[o..o + |Heading(t1)|] == Heading(t1)
    ensures forall q :: o <= q < o + |Heading(t1)| ==> !OccursAt(content, Heading(t2), q)
  {
    var h1, h2 := Heading(t1), Heading(t2);
    forall q | o <= q < o + |h1| ensures !OccursAt(content, h2, q) {
      var d := if q == o then 4 else if q < o + 3 then o + 3 - q else 0;
      var j := q + d - o;
      assert content[q + d] == content[o..o + |h1|][j];
      HeadingChar(t1, j);
      assert h2[d] == if d == 4 then t2[0] else '#' by {
        assert h2[..4] == "### " && h2[4..|h2| - 1] == t2;
        assert d < 4 ==> h2[d] == h2[..4][d];
        assert d == 4 ==> h2[d] == h2[4..|h2| - 1][0];
      }
      assert q + |h2| <= |content| ==> content[q..q + |h2|][d] == content[q + d];
    }
  }

  /** The characters of a heading: `###`, a space, the title, then `:`. */
  lemma HeadingChar(title: string, j: nat)
    requires j < |Heading(title)|
    ensures var h := Heading(title);
      (j < 3 ==> h[j] == '#') && (j == 3 ==> h[j] == ' ')
      && (4 <= j < |h| - 1 ==> h[j] == title[j - 4]) && (j == |h| - 1 ==> h[j] == ':')
  {
    var h := Heading(title);
    assert j < 4 ==> h[j] == h[..4][j];
    assert 4 <= j < |h| - 1 ==> h[j] == h[4..|h| - 1][j - 4];
  }

  /** A body without `###` followed by the end of the text or a `###` ends where the body ends. */
  lemma BodyEndsAt(content: string, e: nat, body: string, rest: string)
    requires e + |body| <= |content| && content[e..e + |body|] == body && content[e + |body|..] == rest
    requires !Contains(body, SectionMark) && (rest == [] || body == [] || body[|body| - 1] != '#')
    requires rest == [] || StartsWith(rest, SectionMark)
    ensures SectionEnd(content, e) == e + |body|
  {
    var end := e + |body|;
    BodyHasNoMarkStart(content, e, body);
    if rest == [] {
      assert end == |content|;
      assert FindFrom(content, SectionMark, e) == None;
    } else {
      assert content[end..end + 3] == rest[..3];
      FindFromIs(content, SectionMark, e, end);
    }
  }

  /** No `###` starts inside a body that holds none and, unless it ends the text, does not end in `#`. */
  lemma BodyHasNoMarkStart(content: string, e: nat, body: string)
    requires e + |body| <= |content| && content[e..e + |body|] == body
    requires !Contains(body, SectionMark) && (e + |body| == |content| || body == [] || body[|body| - 1] != '#')
    ensures forall q: nat :: e <= q < e + |body| ==> !OccursAt(content, SectionMark, q)
  {
    var end := e + |body|;
    forall q: nat | e <= q < end ensures !OccursAt(content, SectionMark, q) {
      if q + 3 <= end {
        SliceOfSlice(content, e, end, q - e, q - e + 3);
        assert body[q - e..q - e + 3] == content[q..q + 3];
        NotContainsAt(body, SectionMark, q - e);
      } else if q + 3 <= |content| {
        assert content[end - 1] == body[|body| - 1];
        assert content[q..q + 3][end - 1 - q] == content[end - 1];
      }
    }
  }

  /** The three sections of `generateTestStepsAndScenarios`. */
  datatype ScenarioBundle = ScenarioBundle(testSteps: string, positiveScenarios: string, negativeScenarios: string)

  /** What the `catch` branch returns. */
  const FailureBundle := ScenarioBundle(FailedSteps, NoData, NoData)

  /**
   * `generateTestStepsAndScenarios` given the model's reply: `None` when the
   * call (or reading the reply's text) throws, otherwise the reply's text.
   */
  function GenerateScenarios(reply: Option<string>): (b: ScenarioBundle)
    ensures reply.None? ==> b == FailureBundle
    ensures reply.Some? ==>
      var content := Trim(reply.value);
      b.testSteps == ExtractSection(content, StepsTitle)
      && b.positiveScenarios == ExtractSection(content, PositiveTitle)
      && b.negativeScenarios == ExtractSection(content, NegativeTitle)
    ensures IsTrimmed(b.testSteps) && !Contains(b.testSteps, SectionMark)
  {
    NoDataIsPlain();
    match reply
    case None => FailureBundle
    case Some(raw) =>
      var content := Trim(raw);
      ScenarioBundle(ExtractSection(content, StepsTitle),
                     ExtractSection(content, PositiveTitle),
                     ExtractSection(content, NegativeTitle))
  }

  /**
   * A reply that arrived yields the failure text as its steps only when the
   * steps heading is there and its section reads exactly that text.
   */
  lemma FailedStepsOnlyFromFailure(raw: string)
    ensures GenerateScenarios(Some(raw)).testSteps == FailedSteps
      <==> FindSection(Trim(raw), StepsTitle) == Some(FailedSteps)
  {
    var content := Trim(raw);
    if !Contains(content, Heading(StepsTitle)) {
      assert NoData[0] != FailedSteps[0];
    }
  }

  /** A string without `#` holds no `###`. */
  lemma NoMarkWithoutHash(s: string)
    requires '#' !in s
    ensures !Contains(s, SectionMark)
  {
    NoHeadingInPlain(s, 0, s, SectionMark);
  }

  /** The three titles start with different letters and hold no `#`. */
  lemma TitlesDiffer()
    ensures StepsTitle[0] == 'D' && PositiveTitle[0] == 'P' && NegativeTitle[0] == 'N'
    ensures '#' !in StepsTitle && '#' !in PositiveTitle && '#' !in NegativeTitle
  {
  }

  /**
   * The text `generateTestStepsAndScenarios` asks the model for: an opening
   * text, then the three headings in order, each followed by its text.
   */
  function ThreeSections(pre: string, s: string, p: string, n: string): string {
    pre + Heading(StepsTitle) + s + Heading(PositiveTitle) + p + Heading(NegativeTitle) + n
  }

  /**
   * A reply that is an opening text and the three headings in order, each
   * followed by text, none of these texts holding `#`, yields the three
   * texts trimmed.
   */
  lemma ThreeSectionReply(pre: string, s: string, p: string, n: string)
    requires '#' !in pre && '#' !in s && '#' !in p && '#' !in n
    ensures GenerateScenarios(Some(ThreeSections(pre, s, p, n))) == ScenarioBundle(Trim(s), Trim(p), Trim(n))
  {
    TitlesDiffer();
    var pre', n' := TrimOfThree(StepsTitle, PositiveTitle, NegativeTitle, pre, s, p, n);
    FirstOfThree(StepsTitle, PositiveTitle, NegativeTitle, pre', s, p, n');
    SecondOfThree(StepsTitle, PositiveTitle, NegativeTitle, pre', s, p, n');
    ThirdOfThree(StepsTitle, PositiveTitle, NegativeTitle, pre', s, p, n');
  }

  /**
   * Trimming text made of a `#`-free opening, three headings with their
   * texts, and a `#`-free last text cuts only into the opening and the last
   * text, and leaves the last text with the same trim.
   */
  lemma TrimOfThree(t1: string, t2: string, t3: string, pre: string, s: string, p: string, n: string)
      returns (pre': string, n': string)
    requires '#' !in pre && '#' !in n
    ensures Trim(pre + Heading(t1) + s + Heading(t2) + p + Heading(t3) + n)
      == pre' + Heading(t1) + s + Heading(t2) + p + Heading(t3) + n'
    ensures '#' !in pre' && '#' !in n' && Trim(n') == Trim(n)
  {
    var h1, h2, h3 := Heading(t1), Heading(t2), Heading(t3);
    SevenParts(pre, h1, s, h2, p, h3, n);
    pre', n' := TrimAround(pre, h1 + s + h2 + p + h3, n);
    SevenParts(pre', h1, s, h2, p, h3, n');
  }

  /**
   * Trimming a middle that starts and ends with non-whitespace between a
   * `#`-free front and back keeps all of the middle and leaves the back with
   * the same trim.
   */
  lemma TrimAround(pre: string, mid: string, n: string) returns (pre': string, n': string)
    requires '#' !in pre && '#' !in n
    requires |mid| > 0 && !IsWhitespace(mid[0]) && !IsWhitespace(mid[|mid| - 1])
    ensures Trim(pre + mid + n) == pre' + mid + n'
    ensures '#' !in pre' && '#' !in n' && Trim(n') == Trim(n)
  {
    var c := pre + mid + n;
    var a, e := |pre|, |pre| + |mid|;
    ThreeParts(pre, mid, n);
    var i, j := TrimKeepsMiddle(c, a, e);
    pre', n' := SliceAroundMiddle(pre, mid, n, i, j);
    NotInSlice('#', pre, i, |pre|);
    NotInSlice('#', n, 0, |n'|);
    TrimOfPadded(n', c[j..]);
  }

  /** A slice of `pre + mid + n` that holds all of `mid` is a suffix of `pre`, `mid` and a prefix of `n`. */
  lemma SliceAroundMiddle(pre: string, mid: string, n: string, i: nat, j: nat) returns (pre': string, n': string)
    requires i <= |pre| && |pre| + |mid| <= j <= |pre| + |mid| + |n|
    ensures var c := pre + mid + n;
      c[i..j] == pre' + mid + n' && pre' == pre[i..] && |n'| <= |n| && n' == n[..|n'|] && n == n' + c[j..]
  {
    var c := pre + mid + n;
    var a, e := |pre|, |pre| + |mid|;
    ThreeParts(pre, mid, n);
    SliceAcross(c, i, a, e, j);
    pre', n' := c[i..a], c[e..j];
    SliceOfSlice(c, 0, a, i, a);
    SliceOfSlice(c, e, |c|, 0, j - e);
    assert c[e..] == n' + c[j..];
  }

  /** The last three of four concatenated parts read back as slices. */
  lemma FourParts(a: string, b: string, c: string, d: string)
    ensures var t := a + b + c + d; var i := |a| + |b|;
      t[|a|..i] == b && t[i..i + |c|] == c && t[i + |c|..] == d
  {
  }

  /** The three parts of a concatenation read back as slices. */
  lemma ThreeParts(a: string, b: string, c: string)
    ensures var t := a + b + c;
      t[..|a|] == a && t[|a|..|a| + |b|] == b && t[|a| + |b|..] == c
  {
  }

  /** The regroupings and slices of seven concatenated parts that the section lemmas use. */
  lemma SevenParts(pre: string, h1: string, s: string, h2: string, p: string, h3: string, n: string)
    requires |h1| > 0 && |h3| > 0
    ensures var c := pre + h1 + s + h2 + p + h3 + n;
      c == pre + (h1 + s + h2 + p + h3) + n
      && c == pre + h1 + s + (h2 + p + h3 + n)
      && c == pre + h1 + (s + (h2 + p + h3 + n))
      && c == (pre + h1 + s) + h2 + p + (h3 + n)
      && c == (pre + h1 + s + h2 + p) + h3 + n + []
    ensures var c := pre + h1 + s + h2 + p + h3 + n;
      var a := |pre|; var o := a + |h1| + |s|;
      c[..a] == pre && c[a..a + |h1|] == h1 && c[a + |h1|..o] == s
      && c[o..o + |h2|] == h2 && c[o + |h2|..o + |h2| + |p|] == p
    ensures var m := h1 + s + h2 + p + h3; m[0] == h1[0] && m[|m| - 1] == h3[|h3| - 1]
  {
  }

  /** Three titles that start with different letters and hold no `#`. */
  predicate DistinctTitles(t1: string, t2: string, t3: string) {
    |t1| > 0 && |t2| > 0 && |t3| > 0 && t1[0] != t2[0] && t1[0] != t3[0] && t2[0] != t3[0]
    && '#' !in t1 && '#' !in t2 && '#' !in t3
  }

  /** The first section of three headed texts after a `#`-free opening is the first text. */
  lemma FirstOfThree(t1: string, t2: string, t3: string, pre: string, s: string, p: string, n: string)
    requires '#' !in pre && '#' !in s
    ensures FindSection(pre + Heading(t1) + s + Heading(t2) + p + Heading(t3) + n, t1) == Some(Trim(s))
  {
    var h1, h2, h3 := Heading(t1), Heading(t2), Heading(t3);
    var rest := h2 + p + h3 + n;
    SevenParts(pre, h1, s, h2, p, h3, n);
    NoMarkWithoutHash(s);
    assert rest[..3] == h2[..3];
    PlainPrefix(pre, t1, s + rest);
    SectionOf(pre, t1, s, rest);
  }

  /** The second section of three headed texts after a `#`-free opening is the second text. */
  lemma SecondOfThree(t1: string, t2: string, t3: string, pre: string, s: string, p: string, n: string)
    requires DistinctTitles(t1, t2, t3) && '#' !in pre && '#' !in s && '#' !in p
    ensures FindSection(pre + Heading(t1) + s + Heading(t2) + p + Heading(t3) + n, t2) == Some(Trim(p))
  {
    var h1, h2, h3 := Heading(t1), Heading(t2), Heading(t3);
    var reply := pre + h1 + s + h2 + p + h3 + n;
    var a := |pre|;
    SevenParts(pre, h1, s, h2, p, h3, n);
    NoMarkWithoutHash(p);
    assert (h3 + n)[..3] == h3[..3];
    NoHeadingInPlain(reply, 0, pre, h2);
    NoHeadingInHeading(reply, a, t1, t2);
    NoHeadingInPlain(reply, a + |h1|, s, h2);
    SectionOf(pre + h1 + s, t2, p, h3 + n);
  }

  /** The third section of three headed texts after a `#`-free opening is the third text. */
  lemma ThirdOfThree(t1: string, t2: string, t3: string, pre: string, s: string, p: string, n: string)
    requires DistinctTitles(t1, t2, t3) && '#' !in pre && '#' !in s && '#' !in p && '#' !in n
    ensures FindSection(pre + Heading(t1) + s + Heading(t2) + p + Heading(t3) + n, t3) == Some(Trim(n))
  {
    var h1, h2, h3 := Heading(t1), Heading(t2), Heading(t3);
    var reply := pre + h1 + s + h2 + p + h3 + n;
    var a := |pre|;
    var o := a + |h1| + |s|;
    SevenParts(pre, h1, s, h2, p, h3, n);
    NoMarkWithoutHash(n);
    NoHeadingInPlain(reply, 0, pre, h3);
    NoHeadingInHeading(reply, a, t1, t3);
    NoHeadingInPlain(reply, a + |h1|, s, h3);
    NoHeadingInHeading(reply, o, t2, t3);
    NoHeadingInPlain(reply, o + |h2|, p, h3);
    SectionOf(pre + h1 + s + h2 + p, t3, n, []);
  }
}
