/**
 * `fetchIssue`, `generateAndRunCypressTests` and `ensureCypressConfig`: the
 * guarded pipeline from one tracker issue to a saved, run test, over an
 * abstract world of posted comments, a file map and a runner flag. What the
 * tracker, the model, the page fetches and the runner answer are inputs.
 */
module Pipeline {
  import opened Options
  import opened Strings
  import opened Urls
  import opened Selectors
  import opened Scenarios
  import opened Sanitize

  /** A comment posted on issue `issue` of the tracker. */
  datatype Comment = Comment(issue: string, body: string)

  /** What the pipeline can change: the comments it posted, the files, whether the runner ran. */
  datatype WorldState = WorldState(comments: seq<Comment>, files: map<string, string>, runnerRan: bool)

  /** The issue as the tracker returns it; a JSON `null` body is `None`. */
  datatype Issue = Issue(title: string, body: Option<string>)

  /** `path.join(__dirname, "cypress.config.js")`, relative to the project directory. */
  const ConfigPath := "cypress.config.js"
  /** `path.join(cypressDir, "generatedTest.spec.js")`, relative to the project directory. */
  const TestFilePath := "cypress/integration/generatedTest.spec.js"

  /** The runner configuration `ensureCypressConfig` writes. */
  const ConfigContent :=
    "const " + "{ defineConfig } = require(\"cypress\");\n"
    + "\n"
    + "module.exports = defineConfig({\n"
    + "    e2e: {\n"
    + "        setupNodeEvents(on, config) {},\n"
    + "        specPattern: \"cypress/integration/**/*.spec.js\",\n"
    + "        supportFile: false,\n"
    + "        reporter: \"mochawesome\",\n"
    + "        reporterOptions: {\n"
    + "            reportDir: \"cypress/reports\",\n"
    + "            overwrite: true,\n"
    + "            html: true,\n"
    + "            json: true\n"
    + "        },\n"
    + "    },\n"
    + "});"

  /** The template literal of `ensureCypressConfig`, before `trim()`. */
  const ConfigTemplate := "\n" + ConfigContent + "\n        "

  /** `trim()` of the template removes exactly its leading newline and trailing indentation. */
  lemma ConfigContentIsTrimmedTemplate()
    ensures Trim(ConfigTemplate) == ConfigContent
  {
    var c := ConfigContent;
    assert c[0] == 'c';
    assert c[|c| - 1] == ';';
    TrimOf("\n", c, "\n        ");
  }

  /** The comment posted when no URL survives extraction. */
  const NoUrlsComment := "**Error: No valid test URLs extracted. Skipping Cypress test execution.**"

  /** Where the results comment points for the runner's HTML report. */
  const MochaReportUrl := "https://raw.githubusercontent.com/Giveth/giveth-dapps-v2/main/cypress/reports/mochawesome.html"

  /** The part of the test-details comment that `trim()` keeps when the last section is not empty. */
  function DetailsBody(b: ScenarioBundle): string {
    "**Detailed Test Steps for UI Testing:**\n" + b.testSteps
    + "\n\n**Positive Test Scenarios:**\n" + b.positiveScenarios
    + "\n\n**Negative Test Scenarios:**\n" + b.negativeScenarios
  }

  /** `testDetailsComment`: the template literal, trimmed. */
  function TestDetailsComment(b: ScenarioBundle): string {
    Trim("\n" + DetailsBody(b) + "\n        ")
  }

  /** The results comment up to the runner's output. */
  const ResultsHead := "**Test Results Table:**\n\n```\n"
  /** The results comment after the runner's output. */
  const ResultsTail := "\n```\n\n[\U{1F4C4} View Mocha Report](" + MochaReportUrl + ")"

  /** The template literal of `testResultsComment`, before `trim()`. */
  function ResultsTemplate(stdout: string): string {
    "\n" + (ResultsHead + stdout + ResultsTail) + "\n            "
  }

  /** `testResultsComment`: the runner's output between the fixed head and tail. */
  function TestResultsComment(stdout: string): string {
    ResultsHead + stdout + ResultsTail
  }

  /**
   * `trim()` of the template removes exactly its leading newline and trailing
   * indentation, whatever the output, so the comment holds the output verbatim.
   */
  lemma ResultsCommentIsTrimmedTemplate(stdout: string)
    ensures Trim(ResultsTemplate(stdout)) == TestResultsComment(stdout)
    ensures TestResultsComment(stdout)[|ResultsHead|..|ResultsHead| + |stdout|] == stdout
  {
    var c := TestResultsComment(stdout);
    assert ResultsHead[0] == '*' && ResultsTail[|ResultsTail| - 1] == ')';
    TrimmedBetween(ResultsHead, stdout, ResultsTail);
    ThreeParts(ResultsHead, stdout, ResultsTail);
    TrimOf("\n", c, "\n            ");
  }

  /** With a non-empty last section, the details comment carries the three sections verbatim. */
  lemma DetailsCommentHoldsSections(b: ScenarioBundle)
    requires b.negativeScenarios != [] && IsTrimmed(b.negativeScenarios)
    ensures TestDetailsComment(b) == DetailsBody(b)
  {
    var c := DetailsBody(b);
    var h := "**Detailed Test Steps for UI Testing:**\n";
    var front := h + b.testSteps + "\n\n**Positive Test Scenarios:**\n" + b.positiveScenarios
      + "\n\n**Negative Test Scenarios:**\n";
    assert c == h + (c[|h|..]);
    assert c[0] == h[0];
    assert c == front + b.negativeScenarios;
    assert c[|c| - 1] == b.negativeScenarios[|b.negativeScenarios| - 1];
    TrimOf("\n", c, "\n        ");
  }

  /** `if (html)`: the fetch returned a page, and `""` is falsy. */
  predicate FetchSucceeded(page: Option<string>) {
    page.Some? && page.value != ""
  }

  /**
   * `validSelectors` after the loop over `urls`: each URL whose page was
   * fetched sets its own entry, in order.
   */
  function SelectorMap(urls: seq<string>, fetch: string -> Option<string>): map<string, seq<string>>
    decreases |urls|
  {
    if urls == [] then map[]
    else
      var m := SelectorMap(urls[..|urls| - 1], fetch);
      var u := urls[|urls| - 1];
      if FetchSucceeded(fetch(u)) then m[u := ExtractValidSelectors(fetch(u).value)] else m
  }

  /** The keys are exactly the URLs whose page was fetched, each with that page's selectors. */
  lemma {:induction false} SelectorMapEntries(urls: seq<string>, fetch: string -> Option<string>, u: string)
    decreases |urls|
    ensures u in SelectorMap(urls, fetch) <==> u in urls && FetchSucceeded(fetch(u))
    ensures u in SelectorMap(urls, fetch) ==> SelectorMap(urls, fetch)[u] == ExtractValidSelectors(fetch(u).value)
  {
    if urls != [] {
      var init := urls[..|urls| - 1];
      SelectorMapEntries(init, fetch, u);
      assert urls == init + [urls[|urls| - 1]];
      assert u in urls <==> u in init || u == urls[|urls| - 1];
    }
  }

  /** One more URL: a failed fetch leaves the map as it is, a good one adds or refreshes its entry. */
  lemma SelectorMapSnoc(urls: seq<string>, u: string, fetch: string -> Option<string>)
    ensures SelectorMap(urls + [u], fetch)
      == if FetchSucceeded(fetch(u)) then SelectorMap(urls, fetch)[u := ExtractValidSelectors(fetch(u).value)]
         else SelectorMap(urls, fetch)
  {
    assert (urls + [u])[..|urls|] == urls;
  }

  /** The `for (const url of extractedUrls)` loop that fills `validSelectors`. */
  method HarvestSelectors(urls: seq<string>, fetch: string -> Option<string>) returns (valid: map<string, seq<string>>)
    ensures valid == SelectorMap(urls, fetch)
  {
    valid := map[];
    for i := 0 to |urls|
      invariant valid == SelectorMap(urls[..i], fetch)
    {
      var url := urls[i];
      var html := fetch(url);
      assert urls[..i + 1] == urls[..i] + [url];
      SelectorMapSnoc(urls[..i], url, fetch);
      if html.Some? && html.value != "" {
        valid := valid[url := ExtractValidSelectors(html.value)];
      }
    }
    assert urls[..|urls|] == urls;
  }

  /** `ensureCypressConfig` on the file map: write the configuration only when it is absent. */
  function EnsureConfig(files: map<string, string>): map<string, string> {
    if ConfigPath in files then files else files[ConfigPath := ConfigContent]
  }

  /** The configuration exists afterwards; an existing one is kept and no other file changes. */
  lemma EnsureConfigEffect(files: map<string, string>)
    ensures ConfigPath in EnsureConfig(files)
    ensures EnsureConfig(files)[ConfigPath] == if ConfigPath in files then files[ConfigPath] else ConfigContent
    ensures forall p :: p != ConfigPath ==> (p in EnsureConfig(files) <==> p in files)
    ensures forall p :: p != ConfigPath && p in files ==> EnsureConfig(files)[p] == files[p]
  {
  }

  /** Calling `ensureCypressConfig` twice gives the state calling it once gives. */
  lemma EnsureConfigIdempotent(files: map<string, string>)
    ensures EnsureConfig(EnsureConfig(files)) == EnsureConfig(files)
  {
    EnsureConfigEffect(files);
  }

  /** `generateAndRunCypressTests` on the world; `testReply` is `None` when the model call throws. */
  function GenerateAndRun(s: WorldState, issue: string, urls: seq<string>, testReply: Option<string>, stdout: string): WorldState {
    if |urls| == 0 then
      s.(comments := s.comments + [Comment(issue, NoUrlsComment)])
    else
      match testReply
      case None => s
      case Some(raw) =>
        WorldState(s.comments + [Comment(issue, TestResultsComment(stdout))],
                   EnsureConfig(s.files[TestFilePath := StripFences(raw)]),
                   true)
  }

  /**
   * The rest of `fetchIssue` once the URLs, the scenarios and the details
   * comment built from them are known: post that comment, stop on the failure
   * sentinel, else generate and run.
   */
  function AfterScenarios(s: WorldState, number: string, urls: seq<string>, bundle: ScenarioBundle, details: string,
                          testReply: Option<string>, stdout: string): WorldState
  {
    var s1 := s.(comments := s.comments + [Comment(number, details)]);
    if bundle.testSteps == FailedSteps then s1
    else GenerateAndRun(s1, number, urls, testReply, stdout)
  }

  /**
   * `fetchIssue` on the world. `issue` is `None` when the tracker request
   * fails; a `null` body makes `extractUrls` throw, which the `catch` swallows.
   */
  function FetchIssueRun(s: WorldState, number: string, issue: Option<Issue>, scenarioReply: Option<string>,
                         testReply: Option<string>, stdout: string): WorldState
  {
    if issue.None? || issue.value.body.None? then s
    else
      var body := issue.value.body.value;
      var bundle := GenerateScenarios(scenarioReply);
      AfterScenarios(s, number, ExtractUrls(body), bundle, TestDetailsComment(bundle), testReply, stdout)
  }

  /** An issue that cannot be fetched, or has no body, changes nothing. */
  lemma UnreadableIssueNoEffect(s: WorldState, number: string, issue: Option<Issue>, scenarioReply: Option<string>,
                                testReply: Option<string>, stdout: string)
    requires issue.None? || issue.value.body.None?
    ensures FetchIssueRun(s, number, issue, scenarioReply, testReply, stdout) == s
  {
  }

  /**
   * When the steps are the failure sentinel, the details comment is posted
   * and nothing else happens: no test file, no configuration, no run.
   */
  lemma FailedStepsSkipTests(s: WorldState, number: string, urls: seq<string>, bundle: ScenarioBundle, details: string,
                             testReply: Option<string>, stdout: string)
    requires bundle.testSteps == FailedSteps
    ensures var t := AfterScenarios(s, number, urls, bundle, details, testReply, stdout);
      t.comments == s.comments + [Comment(number, details)] && t.files == s.files && t.runnerRan == s.runnerRan
  {
  }

  /** In particular a model call that throws stops the pipeline after the details comment. */
  lemma ScenarioFailureSkipsTests(s: WorldState, number: string, issue: Issue, testReply: Option<string>, stdout: string)
    requires issue.body.Some?
    ensures var t := FetchIssueRun(s, number, Some(issue), None, testReply, stdout);
      t.comments == s.comments + [Comment(number, TestDetailsComment(FailureBundle))]
      && t.files == s.files && t.runnerRan == s.runnerRan
  {
    var urls := ExtractUrls(issue.body.value);
    FailedStepsSkipTests(s, number, urls, FailureBundle, TestDetailsComment(FailureBundle), testReply, stdout);
  }

  /**
   * Without a URL the details comment and then exactly one error comment are
   * posted; the files and the runner are left alone.
   */
  lemma NoUrlsGuard(s: WorldState, number: string, bundle: ScenarioBundle, details: string,
                    testReply: Option<string>, stdout: string)
    requires bundle.testSteps != FailedSteps
    ensures var t := AfterScenarios(s, number, [], bundle, details, testReply, stdout);
      t.comments == s.comments + [Comment(number, details), Comment(number, NoUrlsComment)]
      && t.files == s.files && t.runnerRan == s.runnerRan
  {
  }

  /** The state after a run: both comments posted, the test saved, the configuration ensured. */
  lemma AfterScenariosOfRun(s: WorldState, number: string, urls: seq<string>, bundle: ScenarioBundle, details: string,
                            raw: string, stdout: string)
    requires urls != [] && bundle.testSteps != FailedSteps
    ensures AfterScenarios(s, number, urls, bundle, details, Some(raw), stdout)
      == WorldState(s.comments + [Comment(number, details), Comment(number, TestResultsComment(stdout))],
                    EnsureConfig(s.files[TestFilePath := StripFences(raw)]), true)
  {
    var d := Comment(number, details);
    var r := Comment(number, TestResultsComment(stdout));
    var s1 := s.(comments := s.comments + [d]);
    assert AfterScenarios(s, number, urls, bundle, details, Some(raw), stdout)
      == GenerateAndRun(s1, number, urls, Some(raw), stdout);
    AppendTwo(s.comments, d, r);
  }

  /** Appending two comments one at a time appends both. */
  lemma AppendTwo(cs: seq<Comment>, d: Comment, r: Comment)
    ensures cs + [d] + [r] == cs + [d, r]
  {
  }

  /**
   * With good steps, at least one URL and a reply with test code: the
   * sanitized code is saved, the configuration exists, the runner ran, and
   * the last comment holds the runner's output.
   */
  lemma HappyPath(s: WorldState, number: string, urls: seq<string>, bundle: ScenarioBundle, details: string,
                  raw: string, stdout: string)
    requires urls != [] && bundle.testSteps != FailedSteps
    ensures var t := AfterScenarios(s, number, urls, bundle, details, Some(raw), stdout);
      t.runnerRan
      && TestFilePath in t.files && t.files[TestFilePath] == StripFences(raw)
      && ConfigPath in t.files
      && t.comments == s.comments + [Comment(number, details), Comment(number, TestResultsComment(stdout))]
  {
    AfterScenariosOfRun(s, number, urls, bundle, details, raw, stdout);
    SaveAndConfigure(s.files, StripFences(raw));
  }

  /**
   * The worked example end to end: the body names one page, so once the
   * steps are not the failure sentinel, a reply with test code is saved and
   * run, and the runner's output is the last comment posted.
   */
  lemma ExampleIssueRuns(s: WorldState, number: string, title: string, scenarioReply: Option<string>,
                         raw: string, stdout: string)
    requires GenerateScenarios(scenarioReply).testSteps != FailedSteps
    ensures var t := FetchIssueRun(s, number, Some(Issue(title, Some(ExamplePrefix + ExampleUrl + ExampleSuffix))),
                                   scenarioReply, Some(raw), stdout);
      t.runnerRan && TestFilePath in t.files && t.files[TestFilePath] == StripFences(raw)
      && |t.comments| == |s.comments| + 2 && t.comments[|s.comments| + 1] == Comment(number, TestResultsComment(stdout))
  {
    var body := ExamplePrefix + ExampleUrl + ExampleSuffix;
    var bundle := GenerateScenarios(scenarioReply);
    FetchIssueRunOfBody(s, number, title, body, scenarioReply, Some(raw), stdout);
    ExampleIssueBody();
    HappyPath(s, number, [ExampleUrl], bundle, TestDetailsComment(bundle), raw, stdout);
  }

  /** A fetched issue with a body goes on to the scenarios with the URLs of that body. */
  lemma FetchIssueRunOfBody(s: WorldState, number: string, title: string, body: string, scenarioReply: Option<string>,
                            testReply: Option<string>, stdout: string)
    ensures var bundle := GenerateScenarios(scenarioReply);
      FetchIssueRun(s, number, Some(Issue(title, Some(body))), scenarioReply, testReply, stdout)
      == AfterScenarios(s, number, ExtractUrls(body), bundle, TestDetailsComment(bundle), testReply, stdout)
  {
  }

  /** The old comments stay in front, and at most two new ones follow, all on issue `number`. */
  ghost predicate CommentsAppended(before: seq<Comment>, after: seq<Comment>, number: string) {
    |before| <= |after| <= |before| + 2
    && after[..|before|] == before
    && forall k :: |before| <= k < |after| ==> after[k].issue == number
  }

  /** No file other than the test file and the configuration appears, disappears or changes. */
  ghost predicate OtherFilesKept(before: map<string, string>, after: map<string, string>) {
    (forall p :: p != TestFilePath && p != ConfigPath ==> (p in after <==> p in before))
    && (forall p :: p != TestFilePath && p != ConfigPath && p in before ==> after[p] == before[p])
  }

  /** What one `fetchIssue` may change, and that a run comes with both files in place. */
  ghost predicate FrameKept(s: WorldState, t: WorldState, number: string) {
    CommentsAppended(s.comments, t.comments, number)
    && OtherFilesKept(s.files, t.files)
    && (t.runnerRan != s.runnerRan ==> TestFilePath in t.files && ConfigPath in t.files)
  }

  lemma AppendedComments(before: seq<Comment>, extra: seq<Comment>, number: string)
    requires |extra| <= 2 && forall k :: 0 <= k < |extra| ==> extra[k].issue == number
    ensures CommentsAppended(before, before + extra, number)
  {
    assert (before + extra)[..|before|] == before;
  }

  /** Saving the test and ensuring the configuration touch only those two files, and leave both in place. */
  lemma SaveAndConfigure(files: map<string, string>, code: string)
    ensures var after := EnsureConfig(files[TestFilePath := code]);
      OtherFilesKept(files, after) && TestFilePath in after && after[TestFilePath] == code && ConfigPath in after
  {
    EnsureConfigEffect(files[TestFilePath := code]);
  }

  lemma FrameOfComments(s: WorldState, t: WorldState, number: string, extra: seq<Comment>)
    requires t.comments == s.comments + extra && t.files == s.files && t.runnerRan == s.runnerRan
    requires |extra| <= 2 && forall k :: 0 <= k < |extra| ==> extra[k].issue == number
    ensures FrameKept(s, t, number)
  {
    AppendedComments(s.comments, extra, number);
  }

  lemma FrameOfRun(s: WorldState, number: string, d: Comment, r: Comment, code: string)
    requires d.issue == number && r.issue == number
    ensures FrameKept(s, WorldState(s.comments + [d, r], EnsureConfig(s.files[TestFilePath := code]), true), number)
  {
    AppendedComments(s.comments, [d, r], number);
    SaveAndConfigure(s.files, code);
  }

  /**
   * Whatever the inputs: the old comments stay in front and every new one is
   * on this issue; only the test file and the configuration can change; and a
   * run happened only together with both files being in place.
   */
  lemma AfterScenariosFrame(s: WorldState, number: string, urls: seq<string>, bundle: ScenarioBundle, details: string,
                            testReply: Option<string>, stdout: string)
    ensures FrameKept(s, AfterScenarios(s, number, urls, bundle, details, testReply, stdout), number)
  {
    var t := AfterScenarios(s, number, urls, bundle, details, testReply, stdout);
    var d := Comment(number, details);
    if bundle.testSteps == FailedSteps || (urls != [] && testReply.None?) {
      assert t.comments == s.comments + [d] && t.files == s.files && t.runnerRan == s.runnerRan;
      FrameOfComments(s, t, number, [d]);
    } else if urls == [] {
      NoUrlsGuard(s, number, bundle, details, testReply, stdout);
      FrameOfComments(s, t, number, [d, Comment(number, NoUrlsComment)]);
    } else {
      AfterScenariosOfRun(s, number, urls, bundle, details, testReply.value, stdout);
      FrameOfRun(s, number, d, Comment(number, TestResultsComment(stdout)), StripFences(testReply.value));
    }
  }

  lemma FetchIssueFrame(s: WorldState, number: string, issue: Option<Issue>, scenarioReply: Option<string>,
                        testReply: Option<string>, stdout: string)
    ensures FrameKept(s, FetchIssueRun(s, number, issue, scenarioReply, testReply, stdout), number)
  {
    if issue.Some? && issue.value.body.Some? {
      var urls := ExtractUrls(issue.value.body.value);
      var bundle := GenerateScenarios(scenarioReply);
      AfterScenariosFrame(s, number, urls, bundle, TestDetailsComment(bundle), testReply, stdout);
    }
  }

  /** The world, updated in place by the pipeline's steps. */
  class World {
    var comments: seq<Comment>
    var files: map<string, string>
    var runnerRan: bool

    function State(): WorldState
      reads this
    {
      WorldState(comments, files, runnerRan)
    }

    constructor(files0: map<string, string>)
      ensures State() == WorldState([], files0, false)
    {
      comments := [];
      files := files0;
      runnerRan := false;
    }

    /** `postComment(issueNumber, body)`. */
    method PostComment(issue: string, body: string)
      modifies this
      ensures State() == old(State()).(comments := old(comments) + [Comment(issue, body)])
    {
      comments := comments + [Comment(issue, body)];
    }

    /** `fs.writeFileSync(path, content, "utf8")`. */
    method WriteFile(path: string, content: string)
      modifies this
      ensures State() == old(State()).(files := old(files)[path := content])
    {
      files := files[path := content];
    }

    /** `ensureCypressConfig()`. */
    method EnsureCypressConfig()
      modifies this
      ensures State() == old(State()).(files := EnsureConfig(old(files)))
    {
      if ConfigPath !in files {
        files := files[ConfigPath := ConfigContent];
      }
    }

    /** `exec("npx cypress run", …)` and its callback, which posts the output it was given. */
    method RunCypress(issue: string, stdout: string)
      modifies this
      ensures State() == old(State()).(comments := old(comments) + [Comment(issue, TestResultsComment(stdout))],
                                       runnerRan := true)
    {
      runnerRan := true;
      PostComment(issue, TestResultsComment(stdout));
    }

    /** `generateAndRunCypressTests`: guard, harvest the selectors, save and run the generated test. */
    method GenerateAndRunCypressTests(issue: string, urls: seq<string>, fetch: string -> Option<string>,
                                      testReply: Option<string>, stdout: string)
      returns (validSelectors: map<string, seq<string>>)
      modifies this
      ensures State() == GenerateAndRun(old(State()), issue, urls, testReply, stdout)
      ensures |urls| > 0 ==> validSelectors == SelectorMap(urls, fetch)
    {
      validSelectors := map[];
      if |urls| == 0 {
        PostComment(issue, NoUrlsComment);
        return;
      }
      validSelectors := HarvestSelectors(urls, fetch);
      if testReply.None? {
        return;
      }
      var code := StripFences(testReply.value);
      WriteFile(TestFilePath, code);
      EnsureCypressConfig();
      RunCypress(issue, stdout);
    }

    /** `fetchIssue(issueNumber)`, with the answers of the tracker, the model, the pages and the runner as inputs. */
    method FetchIssue(number: string, issue: Option<Issue>, scenarioReply: Option<string>,
                      fetch: string -> Option<string>, testReply: Option<string>, stdout: string)
      modifies this
      ensures State() == FetchIssueRun(old(State()), number, issue, scenarioReply, testReply, stdout)
    {
      if issue.None? || issue.value.body.None? {
        return;
      }
      var body := issue.value.body.value;
      var urls := ExtractUrls(body);
      var bundle := GenerateScenarios(scenarioReply);
      PostComment(number, TestDetailsComment(bundle));
      if bundle.testSteps == FailedSteps {
        return;
      }
      var _ := GenerateAndRunCypressTests(number, urls, fetch, testReply, stdout);
    }
  }
}
