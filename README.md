# TestSense-AI issue-to-test pipeline, modelled in Dafny

TestSense-AI reads one issue from a GitHub repository and collects the page URLs in its body. It asks a
language model for test steps and for positive and negative scenarios, and posts them back on the issue.
Unless the steps are the failure sentinel, it fetches each page, harvests up to ten CSS class selectors
per page, and asks the model for Cypress test code. It then strips the code fences from that reply, saves
the code as `cypress/integration/generatedTest.spec.js`, creates `cypress.config.js` if it is missing,
runs Cypress, and posts the runner's output as a comment.

The model covers `TestSense-AI/fetchIssues.js`, one module per concern:

- `Strings`: JavaScript whitespace (the one set used by both `\s` and `trim()`), `trim()`, `includes` and the leftmost search for a literal that the section pattern starts with.
- `RegexScan`: the URL pattern (`fetchIssues.js:49`) and the class-attribute pattern (`fetchIssues.js:159`), whose every match is collected. Each pattern is a match-length function. One generic scan collects the leftmost-first, non-overlapping matches, as `match`/`matchAll` do with the `g` flag. The other two global patterns are modelled elsewhere: `/\s+/g` (`fetchIssues.js:160`) by `Selectors.CollapseWhitespace`, and the section pattern (`fetchIssues.js:343`) by `Strings.FindFrom` and `Scenarios.SectionEnd`.
- `Urls`: `extractUrls`.
- `Selectors`: `extractValidSelectors`, covering the whitespace-to-dot replacement, `new Set` de-duplication in first-occurrence order, and `slice(0, 10)`.
- `Scenarios`: `extractSection` and the scenario bundle of `generateTestStepsAndScenarios`, including the failure bundle.
- `Sanitize`: the clean-up of the generated test code.
- `Pipeline`: `fetchIssue`, `generateAndRunCypressTests`, `ensureCypressConfig` and `postComment`.
  - The observable world is a `WorldState`: the comments posted, a map from file path to contents, and whether the runner ran.
  - Specification functions say what each step does to that state.
  - The `World` class holds the same state as fields. Its methods are proved to change it exactly as the specification functions say.
  - The selector loop is the method `HarvestSelectors`.

Whatever the program gets from outside becomes a parameter:
- The tracker's answer is `Option<Issue>`: `None` when the request fails, and a `null` body is `None`.
- Each model reply is `Option<string>`: `None` means the call threw.
- Page fetches are a function `string -> Option<string>`: `None` means `fetchPageHtml` returned `null`.
- The runner's captured output is a string.

Behaviour of the code worth noting:
- The generated test is only trimmed, stripped of one leading `` ```javascript `` and of one `` ``` `` at its very end, and trimmed again (`fetchIssues.js:251-252`). Text after a closing fence that is not at the very end stays in the saved file.
- `if (html)` (`fetchIssues.js:197`) skips an empty page as well as a failed fetch.
- The steps read "Failed to generate test steps." when the model call fails. They read the same when the reply's own steps section says exactly that (`Scenarios.FailedStepsOnlyFromFailure`). Both stop the pipeline.
- A section whose heading is missing yields "No data generated.". So does a section whose body reads exactly that text (`Scenarios.SentinelExactly`).
- `fetchPageHtml` and `extractValidSelectors` are defined twice, identically (`fetchIssues.js:147-162` and `166-181`). They are modelled once.

## Model

The specification functions of `Pipeline` have no contracts of their own; the lemma rows speak for them. `EnsureConfig` is covered by `EnsureConfigEffect` and `EnsureConfigIdempotent`. `SelectorMap` and `FetchSucceeded` are covered by `SelectorMapEntries` and `SelectorMapSnoc`. `TestDetailsComment` is covered by `DetailsCommentHoldsSections`, and `TestResultsComment` by `ResultsCommentIsTrimmedTemplate`. `AfterScenarios` is covered by `FailedStepsSkipTests`, `AfterScenariosOfRun` and `AfterScenariosFrame`. `GenerateAndRun` is covered by `NoUrlsGuard` and `HappyPath`. `FetchIssueRun` is covered by `UnreadableIssueNoEffect`, `FetchIssueRunOfBody`, `ScenarioFailureSkipsTests`, `ExampleIssueRuns` and `FetchIssueFrame`. The `World` methods are tied to these functions by their own contracts.

| member | source | states |
|---|---|---|
| Strings.FindFrom | TestSense-AI/fetchIssues.js:343-345 | the index returned is an occurrence of the pattern at or after the start index, and no earlier occurrence exists there; `None` exactly when there is none |
| Strings.FindFromStart | TestSense-AI/fetchIssues.js:343-344 | a search from the start finds something exactly when the text contains the pattern |
| Strings.Trim | TestSense-AI/fetchIssues.js:339 | `trim()` returns a slice of its input with only whitespace cut off at both ends, and the result starts and ends with non-whitespace |
| Strings.TrimOf | TestSense-AI/fetchIssues.js:345 | trimming whitespace + trimmed text + whitespace gives exactly the trimmed text |
| Strings.TrimOfPadded | TestSense-AI/fetchIssues.js:345 | whitespace appended to a string does not change its trim |
| Strings.TrimIdempotent | TestSense-AI/fetchIssues.js:251-252 | trimming a second time changes nothing |
| Strings.TrimKeepsAbsent | TestSense-AI/fetchIssues.js:345 | trimming never creates an occurrence of a substring |
| RegexScan.UrlMatchLen | TestSense-AI/fetchIssues.js:49 | a match at the start of a string is a scheme followed by non-whitespace, and it ends at whitespace or at the end of the input |
| RegexScan.UrlMatchLenLongest | TestSense-AI/fetchIssues.js:49 | the URL match is greedy: no longer prefix is a URL token, and on no match no prefix is one |
| RegexScan.ClassMatchLen | TestSense-AI/fetchIssues.js:159 | a match at the start is `class="`, a non-empty quote-free value and the closing quote |
| RegexScan.ClassMatchLenUnique | TestSense-AI/fetchIssues.js:159 | the class match is the only prefix the pattern matches whole, and there is none when the match length is 0 |
| RegexScan.ScanFromIsScan | TestSense-AI/fetchIssues.js:50 | from any index on, the scan yields whole matches of the pattern, in text order and without overlap, and every index where the pattern matches lies inside one of them |
| RegexScan.Scan | TestSense-AI/fetchIssues.js:159 | every span the global scan returns lies inside the text and is non-empty |
| RegexScan.ScanIsScan | TestSense-AI/fetchIssues.js:50 | the scan of the whole text is its sequence of leftmost-first non-overlapping matches |
| RegexScan.ScanFromUnique | TestSense-AI/fetchIssues.js:50 | any sequence of whole matches in text order, without overlap and covering every matching index from `i` on, is the scan from `i` |
| RegexScan.ScanFromDetermined | TestSense-AI/fetchIssues.js:159 | those three conditions determine the matches uniquely |
| RegexScan.ScanSpansAreMatches | TestSense-AI/fetchIssues.js:159 | each span of the scan is a match of the length the pattern gives at its start |
| RegexScan.ScanNoMatch | TestSense-AI/fetchIssues.js:50 | a text where the pattern matches nowhere gives no match, so `match` falls back to the empty list |
| RegexScan.ScanSingle | TestSense-AI/fetchIssues.js:50 | when every matching index lies inside one match, the scan returns that match alone |
| Urls.UrlMatches | TestSense-AI/fetchIssues.js:49-50 | the strings found are the texts of the scan's spans, in order, each a URL token followed by whitespace or the end of the body |
| Urls.DropTrackerLinks | TestSense-AI/fetchIssues.js:50 | the filter keeps exactly the URLs that do not contain `github.com`, and never adds any |
| Urls.ExtractUrls | TestSense-AI/fetchIssues.js:48-51 | every URL returned is a URL token without whitespace and without `github.com` |
| Urls.ExtractUrlsKeepsNonTrackerMatches | TestSense-AI/fetchIssues.js:50 | a string is returned exactly when it is a match and is not a tracker link |
| Urls.DropTrackerLinksAppend | TestSense-AI/fetchIssues.js:50 | filtering distributes over concatenation, so the surviving URLs keep their order |
| Urls.DropTrackerLinksKeepsOthers | TestSense-AI/fetchIssues.js:50 | a list with no tracker link passes the filter unchanged |
| Urls.UrlMatchHasScheme | TestSense-AI/fetchIssues.js:49 | every match starts with `http://` or `https://` |
| Urls.NoSchemeNoUrls | TestSense-AI/fetchIssues.js:48-51 | a body without `http://` and `https://` yields no URL |
| Urls.UrlMatchLenOfToken | TestSense-AI/fetchIssues.js:49 | a whole URL token followed by whitespace or the end is matched whole |
| Urls.SingleUrl | TestSense-AI/fetchIssues.js:48-51 | a URL token between text without the letter `h` and whitespace or the end is the one match |
| Urls.ExampleIssueBody | TestSense-AI/fetchIssues.js:48-51 | "Banner overlaps footer. See https://example.com/page for repro." yields exactly `["https://example.com/page"]` |
| Selectors.ClassValues | TestSense-AI/fetchIssues.js:159 | the captured values are, in order, the non-empty quote-free texts between `class="` and the closing quote of each match |
| Selectors.CollapseWhitespace | TestSense-AI/fetchIssues.js:160 | `replace(/\s+/g, '.')` leaves no whitespace and never lengthens the value |
| Selectors.CollapseKeepsPlainText | TestSense-AI/fetchIssues.js:160 | a value without whitespace is left unchanged |
| Selectors.CollapseRun | TestSense-AI/fetchIssues.js:160 | each maximal whitespace run becomes exactly one `.`, so "foo bar" gives "foo.bar" |
| Selectors.ToSelector | TestSense-AI/fetchIssues.js:160 | a selector starts with `.` and has no whitespace |
| Selectors.ToSelectorOfPlainValue | TestSense-AI/fetchIssues.js:160 | a single class name `v` becomes `.v` |
| Selectors.Dedup | TestSense-AI/fetchIssues.js:160 | `[...new Set(s)]` has no repeats, has exactly the elements of `s`, and is no longer than `s` |
| Selectors.DedupKeepsFirstOrder | TestSense-AI/fetchIssues.js:160 | the de-duplicated elements come in the order of their first occurrences |
| Selectors.DedupConstant | TestSense-AI/fetchIssues.js:160 | a list whose elements are all equal de-duplicates to one element |
| Selectors.SelectorsOfValues | TestSense-AI/fetchIssues.js:160-161 | the result is the first at most ten entries of the de-duplicated selector list: no repeats, each taken from the mapped list, each a dotted selector |
| Selectors.SelectorsComeFromValues | TestSense-AI/fetchIssues.js:160 | every selector returned is the selector of one of the captured values |
| Selectors.SelectorsKeepFirstOrder | TestSense-AI/fetchIssues.js:160-161 | the selectors returned keep the order of their first appearance |
| Selectors.FewSelectorsAllKept | TestSense-AI/fetchIssues.js:161 | with at most ten distinct selectors, all of them are returned |
| Selectors.ManySelectorsTenKept | TestSense-AI/fetchIssues.js:161 | with ten or more distinct selectors, exactly ten are returned, so with the prefix property they are the first ten distinct ones |
| Selectors.EarlierSelectorsKept | TestSense-AI/fetchIssues.js:160-161 | a selector that first appears before a returned one is returned too |
| Selectors.RepeatedValueOneSelector | TestSense-AI/fetchIssues.js:160 | the same class value repeated any number of times gives exactly one selector |
| Selectors.ExtractValidSelectors | TestSense-AI/fetchIssues.js:158-162 | a prefix of at most ten of the de-duplicated selectors of the captured class values: distinct dotted selectors, each the selector of a class value captured from the page |
| Selectors.NoClassAttributeNoSelectors | TestSense-AI/fetchIssues.js:159-161 | markup without `class="` yields no value and no selector |
| Scenarios.Heading | TestSense-AI/fetchIssues.js:343 | the heading starts with `### ` and ends with `:`, and the title reads back from between them |
| Scenarios.SectionEnd | TestSense-AI/fetchIssues.js:343 | the lazy body stops at the first `###` at or after its start, or at the end of the text |
| Scenarios.SectionAt | TestSense-AI/fetchIssues.js:343-345 | the body after the first heading, up to the next `###`, trimmed, holds no `###` |
| Scenarios.FindSection | TestSense-AI/fetchIssues.js:343-345 | no match exactly when the heading is absent; otherwise the result is the trimmed body of the first section with that heading, which contains no `###` |
| Scenarios.ExtractSection | TestSense-AI/fetchIssues.js:342-346 | a missing heading gives "No data generated."; a present one gives the section; either way the result is trimmed and holds no `###` |
| Scenarios.NoDataIsPlain | TestSense-AI/fetchIssues.js:345-358 | neither sentinel is padded or contains `###` |
| Scenarios.SentinelExactly | TestSense-AI/fetchIssues.js:345 | the sentinel comes back exactly when the heading is missing or the section itself reads "No data generated." |
| Scenarios.SectionOf | TestSense-AI/fetchIssues.js:343-345 | for text made of a prefix in which the heading does not start, the heading, a body in which no `###` starts, then the end or the next `###`, the section is the trimmed body; no `###` starts in the body when it holds none and, unless it ends the text, does not end in `#` |
| Scenarios.PlainPrefix | TestSense-AI/fetchIssues.js:343-344 | a heading after text without `#` does not occur earlier |
| Scenarios.NoHeadingInHeading | TestSense-AI/fetchIssues.js:343-344 | the heading of one title does not start inside the heading of a title with another first letter |
| Scenarios.GenerateScenarios | TestSense-AI/fetchIssues.js:339-360 | a failed call gives the failure bundle; a reply gives the three sections of the trimmed reply; the steps are always trimmed and hold no `###` |
| Scenarios.ThreeSectionReply | TestSense-AI/fetchIssues.js:339-352 | a reply made of an opening text and the three headings in order, each followed by its text, with no `#` in any of these texts, yields the three texts trimmed, whatever whitespace surrounds them |
| Scenarios.FailedStepsOnlyFromFailure | TestSense-AI/fetchIssues.js:349-356 | with a reply, the steps equal the failure text exactly when the steps section reads that text |
| Sanitize.DropOpeningFence | TestSense-AI/fetchIssues.js:252 | the result is the input, or the input with one leading `` ```javascript `` removed; the fence comes off exactly when the input starts with it |
| Sanitize.DropClosingFence | TestSense-AI/fetchIssues.js:252 | the result is the input, or the input with one `` ``` `` removed from its very end; the fence comes off exactly when the input ends with it |
| Sanitize.StripFences | TestSense-AI/fetchIssues.js:251-252 | the saved code is trimmed, and it is a slice of the trimmed reply preceded only by whitespace or the opening fence and whitespace, and followed only by whitespace or whitespace and the closing fence; the slice starts after the opening fence when the trimmed reply starts with one, and ends before the closing fence when the rest after the opening fence ends with one |
| Sanitize.StripFencesOfTrimmed | TestSense-AI/fetchIssues.js:251-252 | on a reply that needs no trimming, only the fences come off before the final trim |
| Sanitize.StripFencesOfFencedCode | TestSense-AI/fetchIssues.js:251-252 | trimmed code wrapped in a javascript fence on lines of its own comes back exactly |
| Sanitize.StripFencesWithoutFences | TestSense-AI/fetchIssues.js:251-252 | a reply without either fence is only trimmed |
| Pipeline.ConfigContentIsTrimmedTemplate | TestSense-AI/fetchIssues.js:21-38 | `trim()` of the configuration template cuts exactly its leading newline and trailing indentation |
| Pipeline.ResultsCommentIsTrimmedTemplate | TestSense-AI/fetchIssues.js:274-282 | `trim()` of the template cuts exactly its leading newline and trailing indentation, for every output, so the comment holds the runner's output verbatim after the fixed head |
| Pipeline.DetailsCommentHoldsSections | TestSense-AI/fetchIssues.js:121-130 | with a non-empty trimmed last section, the details comment is the three headings and sections, verbatim |
| Pipeline.SelectorMapEntries | TestSense-AI/fetchIssues.js:194-200 | a URL has an entry exactly when it was extracted and its page was fetched non-empty, and the entry is that page's selectors |
| Pipeline.SelectorMapSnoc | TestSense-AI/fetchIssues.js:195-199 | one more URL: a failed fetch leaves every other entry as it was, a good one sets only its own entry |
| Pipeline.HarvestSelectors | TestSense-AI/fetchIssues.js:194-200 | the loop ends with exactly the selector map of all extracted URLs |
| Pipeline.EnsureConfigEffect | TestSense-AI/fetchIssues.js:17-45 | afterwards the configuration exists; an existing one is kept as it was, a missing one gets the fixed content, and no other file changes |
| Pipeline.EnsureConfigIdempotent | TestSense-AI/fetchIssues.js:17-45 | calling it twice leaves the files as calling it once does |
| Pipeline.UnreadableIssueNoEffect | TestSense-AI/fetchIssues.js:96-112 | an issue that cannot be fetched, or whose body is `null`, changes nothing |
| Pipeline.FetchIssueRunOfBody | TestSense-AI/fetchIssues.js:112-138 | a fetched issue continues with the URLs of its body and the scenarios of the reply |
| Pipeline.FailedStepsSkipTests | TestSense-AI/fetchIssues.js:131-136 | on the failure sentinel only the details comment is posted: no file is written and the runner does not run |
| Pipeline.ScenarioFailureSkipsTests | TestSense-AI/fetchIssues.js:115-136 | a model call that throws leads to the failure bundle's details comment and nothing else |
| Pipeline.NoUrlsGuard | TestSense-AI/fetchIssues.js:186-190 | with no URL, the details comment is followed by exactly one error comment, no file is written and the runner does not run |
| Pipeline.AfterScenariosOfRun | TestSense-AI/fetchIssues.js:251-285 | a run posts the details and results comments, saves the sanitized code and ensures the configuration |
| Pipeline.HappyPath | TestSense-AI/fetchIssues.js:184-296 | with good steps, a URL and a reply: the sanitized code is saved at the test path, the configuration exists, the runner ran, and the results comment follows the details comment |
| Pipeline.ExampleIssueRuns | TestSense-AI/fetchIssues.js:96-142 | the worked example body leads, once the steps are not the sentinel, to a saved and run test whose output is the last comment |
| Pipeline.AfterScenariosFrame | TestSense-AI/fetchIssues.js:184-296 | old comments stay first and at most two new ones follow, all on this issue; of the files the program writes, none but the test and the configuration changes; a run always comes with both files in place |
| Pipeline.FetchIssueFrame | TestSense-AI/fetchIssues.js:96-142 | the same frame holds for the whole of `fetchIssue`, whatever its inputs |
| Pipeline.World.PostComment | TestSense-AI/fetchIssues.js:77-93 | the comment is appended on the given issue and nothing else changes |
| Pipeline.World.WriteFile | TestSense-AI/fetchIssues.js:264 | the file is set to the content and nothing else changes |
| Pipeline.World.EnsureCypressConfig | TestSense-AI/fetchIssues.js:17-45 | the files become those of `EnsureConfig`, and the comments and runner flag stay |
| Pipeline.World.RunCypress | TestSense-AI/fetchIssues.js:270-292 | the runner has run and the results comment for its output is appended |
| Pipeline.World.GenerateAndRunCypressTests | TestSense-AI/fetchIssues.js:184-296 | the new state is `GenerateAndRun` of the old one, and with URLs the harvested map is exactly the selector map |
| Pipeline.World.FetchIssue | TestSense-AI/fetchIssues.js:96-142 | the new state is `FetchIssueRun` of the old one |

## Left out

- Network calls: the GitHub issue request, comment posting, page fetches and both model calls are not modelled. Their answers are parameters, as described above. The prompt texts (`fetchIssues.js:205-239`, `303-331`) and the model options are not modelled either. The harvested selectors feed only the prompt, so the pipeline's effect on the world does not depend on them. `HarvestSelectors` still returns them.
- Pipeline.World.PostComment: always appends. `postComment` swallows a failed POST (`fetchIssues.js:90-92`), and then no comment appears.
- Pipeline.World.RunCypress: `exec` runs the runner asynchronously and its callback posts later (`fetchIssues.js:270-292`). The model runs it in sequence, after the test is saved. The runner's `error` only changes the log, so it is not a parameter. The files the runner itself writes are not in the file map. These include the mochawesome reports that the configuration sends to `cypress/reports` (`fetchIssues.js:30-35`), so `AfterScenariosFrame` speaks only of the files the program writes.
- Pipeline.HarvestSelectors: a fixed fetch function gives the same answer for a URL listed twice. The source fetches it twice and may get two answers; with map semantics the later good fetch wins.
- A page body that is not a string (`axios` may hand back parsed JSON) makes `matchAll` throw, and the outer `catch` ends the run. Pages are strings here.
- A reply whose `message.content` is `null` throws like a failed call and is modelled as the `None` reply.
- `logAllIssues` (`fetchIssues.js:54-74`), the `readline` prompt (`363-369`) and all console output are left out. The issue number is simply a string parameter.
- File writes always succeed. If `mkdirSync` or `writeFileSync` throws (`fetchIssues.js:259`, `264`, `40`), the `catch` at `fetchIssues.js:293` ends the run. The effects so far remain, and the runner does not run.
- Directory creation (`fetchIssues.js:257-260`), `__dirname` and `path.join`: files are keyed by path relative to the project directory. `fs.existsSync` is modelled as membership in the file map.
- JavaScript strings are UTF-16. Here a string is a sequence of Unicode scalar values, so the report emoji is one character rather than two code units. Nothing in the pipeline indexes into such characters.
- The issue title is part of `Issue` but appears only in log output.
