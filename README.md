# nest-data-layer-checker — a Dafny model of its checking core

This project models two services of the NestJS application
`nest-data-layer-checker`.

- **The data-layer checker service.** It reads the records of a table-store
  view and projects each one to its `id` and `fields`. It turns every record
  into a test case: a URL plus the "Code Specs" text. It then decides one
  "Checking result" per test case and hands the list of results to the table
  store.
  - A case without a URL or without a code spec is `false`.
  - A spec that starts with `window` is a data-layer spec. The pushed object
    literal is cut out of it with three steps: every `$` is removed, the text
    is split on `(` and the second piece kept, and that piece is split on `;`
    and the first piece kept. The literal is parsed, and the case passes when
    every top-level key of the spec is a key of the data layer observed on
    the page.
  - Any other spec goes to the data-attribute check, a stub that always
    answers `false`.
- **The tag-manager operator service.** It cuts the website URL out of a
  tag-manager preview link: the first `&`-separated segment that starts with
  `url=`, then its text after the first `=` and up to the next `=`. It waits
  for the browser target whose URL equals that website URL exactly. The page
  it tests is the browser's last page.

Modules:

- `Outcomes`: `Option` and `Result`.
- `Text`: the JavaScript `split`, `find` and `startsWith` the services use,
  with their algebra (`Join` is the inverse of `Split`).
- `DataLayerChecker`: the checker service.
- `GtmOperator`: the operator service.

The record projections, the key extraction and the data-layer check are
functions. The examination loop is an imperative method on the class
`ExaminationRun`. The class holds the `promises` array, which lives outside
the subscription callback. The method is proved against the function
`ExamineAll`, and the properties of the loop are lemmas about `ExamineAll`.

**A thrown error ends the pass.** Each of these throws from inside the
subscription callback:

- `split('(')[1]` is undefined;
- `JSON.parse` rejects the literal;
- the page collaborator fails.

Then the callback stops and nothing is patched. The results pushed before the
throw stay in `promises` and are handed over, with the new ones, by a later
emission. In the model, this is `Failure` and `OnRecords` returning `None`.

**What the code decides, and what it does not.**

- A data-layer spec is recognised by `startsWith('window')` (line 71 of the
  checker service), a test on the start of the text only.
- Only the top-level keys of the spec and of the observed data layer are
  compared (lines 117-119); their values are not.
- All results of a pass go to `patchAirtable` in one call (lines 95-101).
- A throw in any record ends the whole pass; it is not caught per record.

**How edge cases behave.**

- A spec without `(` fails with `NoOpenParen`.
- A website URL that itself holds `=` is cut at that `=` (`EmbeddedEquals`).
  The wait then looks for the shortened URL.

## Model

| member | source | states |
|---|---|---|
| DataLayerChecker.ConstructSpecs | src/data-layer-checker/data-layer-checker.service.ts:18-23 | one row per record, in order, each keeping the record's `id` and `fields` |
| DataLayerChecker.ConstructSpecsConcat | src/data-layer-checker/data-layer-checker.service.ts:18-23 | the projection works record by record: projecting a concatenation concatenates the projections |
| DataLayerChecker.ToTestCase | src/data-layer-checker/data-layer-checker.service.ts:53-58 | the case keeps the record's `id`; its URL is `""` exactly when "URL" is missing or empty and is the field otherwise; its code spec is present exactly when "Code Specs" is, with that field's text |
| DataLayerChecker.ToTestCases | src/data-layer-checker/data-layer-checker.service.ts:52-59 | one test case per row, in order: a missing or empty "URL" becomes `""`, and "Code Specs" is carried over when present |
| DataLayerChecker.StripDollars | src/data-layer-checker/data-layer-checker.service.ts:110-111 | the result holds no `$` and is no longer than the input |
| DataLayerChecker.StripDollarsKeeps | src/data-layer-checker/data-layer-checker.service.ts:111 | every character other than `$` is in the result exactly when it is in the input |
| DataLayerChecker.StripDollarsConcat | src/data-layer-checker/data-layer-checker.service.ts:111 | removal works piece by piece, so the other characters keep their order |
| DataLayerChecker.StripDollarsFixes | src/data-layer-checker/data-layer-checker.service.ts:111 | a text without `$` is left unchanged |
| DataLayerChecker.StripDollarsIdempotent | src/data-layer-checker/data-layer-checker.service.ts:111 | removing `$` twice is the same as removing it once |
| DataLayerChecker.ParenLiteral | src/data-layer-checker/data-layer-checker.service.ts:112-113 | fails (`NoOpenParen`) exactly when the text has no `(`; otherwise the literal holds no `(` and no `;` |
| DataLayerChecker.ParenLiteralOf | src/data-layer-checker/data-layer-checker.service.ts:112-113 | the literal is exactly the text after the first `(`, up to the next `(`, `;` or the end |
| DataLayerChecker.ParenLiteralSplits | src/data-layer-checker/data-layer-checker.service.ts:112-113 | conversely, every text with a `(` is a `(`-free prefix, a `(`, the literal, and a rest that is empty or starts with `(` or `;` |
| DataLayerChecker.LiteralPiece | src/data-layer-checker/data-layer-checker.service.ts:112-113 | the first piece on `(` and then on `;` of a literal followed by `(`, `;` or nothing is that literal |
| DataLayerChecker.ExtractLiteral | src/data-layer-checker/data-layer-checker.service.ts:110-113 | fails exactly when the spec has no `(`; otherwise the literal holds no `$`, `(` or `;` |
| DataLayerChecker.ExtractLiteralOf | src/data-layer-checker/data-layer-checker.service.ts:110-113 | the literal of a spec is determined by the spec with its `$` removed, as in ParenLiteralOf |
| DataLayerChecker.ExtractLiteralSplits | src/data-layer-checker/data-layer-checker.service.ts:110-113 | conversely, the literal sits right after the first `(` of the spec with its `$` removed |
| DataLayerChecker.StripOnePlaceholder | src/data-layer-checker/data-layer-checker.service.ts:111 | removing the `$` of one `${...}` placeholder joins the text around it |
| DataLayerChecker.ExtractPushExample | src/data-layer-checker/data-layer-checker.service.ts:30-35 | for a one-key variant of the commented `window.datalayer.push({...};)` form (the comment has three keys), written `window.dataLayer.push({"id": "${id}"};)`, the literal is the pushed object without `$` |
| DataLayerChecker.AllKeysPresent | src/data-layer-checker/data-layer-checker.service.ts:119 | true exactly when every spec key is one of the actual keys |
| DataLayerChecker.ExamineDataLayer | src/data-layer-checker/data-layer-checker.service.ts:108-121 | `NoOpenParen` exactly when the spec has no `(`; `SpecNotParsable` exactly when the extracted literal does not parse; a result exactly when the spec has a `(` and its literal parses, and then it passes exactly when every key of the parsed spec is an actual key |
| DataLayerChecker.MoreActualKeysStillPass | src/data-layer-checker/data-layer-checker.service.ts:117-119 | adding keys to the actual data layer never turns a pass into a fail |
| DataLayerChecker.FewerSpecKeysStillPass | src/data-layer-checker/data-layer-checker.service.ts:117-119 | a parsable spec whose keys are a subset of a passing spec's keys passes too |
| DataLayerChecker.EmptySpecPasses | src/data-layer-checker/data-layer-checker.service.ts:117-119 | a spec literal without keys passes against any data layer |
| DataLayerChecker.ExamineDataAttributes | src/data-layer-checker/data-layer-checker.service.ts:105-107 | never passes |
| DataLayerChecker.CheckTestCase | src/data-layer-checker/data-layer-checker.service.ts:63-93 | only a case with a URL and a spec starting with `window` can throw; a `true` value needs, in addition, an observed data layer against which the data-layer check passes |
| DataLayerChecker.ExamineAll | src/data-layer-checker/data-layer-checker.service.ts:62-94 | never more results than cases, and one result per case when no case throws |
| DataLayerChecker.CheckRowRules | src/data-layer-checker/data-layer-checker.service.ts:52-93 | the value for a record, from its fields: no URL or no code spec gives `false`; a spec starting with `window` gives the data-layer check against what is observed at the URL (or the collaborator's failure); any other spec gives `false` |
| DataLayerChecker.ExamineTestCase | src/data-layer-checker/data-layer-checker.service.ts:63-93 | the loop body's value or thrown failure is the one the rules of CheckRowRules give |
| DataLayerChecker.ExamineStep | src/data-layer-checker/data-layer-checker.service.ts:62-94 | one more case either appends its result or records its failure |
| DataLayerChecker.FailureSticks | src/data-layer-checker/data-layer-checker.service.ts:62-94 | once a case has thrown, later cases change nothing |
| DataLayerChecker.ExamineAllShape | src/data-layer-checker/data-layer-checker.service.ts:62-94 | one result per case, in order, with the case's `id`, the field "Checking result" and its check's value, up to the first throwing case; every case has a result when none throws |
| DataLayerChecker.ExamineAllCompletes | src/data-layer-checker/data-layer-checker.service.ts:62-101 | the pass reaches the patch exactly when no case's check throws |
| DataLayerChecker.PassMeansDataLayerMatched | src/data-layer-checker/data-layer-checker.service.ts:62-94 | a result is `true` only for a record with a URL and a `window` spec, whose every spec key was observed at that URL |
| DataLayerChecker.ExaminationRun.constructor | src/data-layer-checker/data-layer-checker.service.ts:49 | `promises` starts empty |
| DataLayerChecker.ExaminationRun.OnRecords | src/data-layer-checker/data-layer-checker.service.ts:50-102 | `promises` grows by the pass's results; the payload handed to the table store is all of `promises` when no case throws, and nothing otherwise |
| DataLayerChecker.UpdateExaminationResults | src/data-layer-checker/data-layer-checker.service.ts:42-103 | for one emission, the payload is the pass's results when no case throws, and nothing otherwise |
| Text.StartsWith | src/data-layer-checker/data-layer-checker.service.ts:71 | true exactly when the prefix is no longer than the text and matches it character by character from the start |
| Text.Split | src/gtm-operator/gtm-operator.service.ts:11 | the pieces of JavaScript's one-character `split`: at least one piece; no piece holds the separator; one piece exactly when the separator is absent |
| Text.JoinSplit | src/gtm-operator/gtm-operator.service.ts:11 | joining the pieces back with the separator gives the original text |
| Text.SplitJoin | src/gtm-operator/gtm-operator.service.ts:11 | splitting a join of separator-free pieces gives those pieces back |
| Text.SplitConcat | src/data-layer-checker/data-layer-checker.service.ts:112 | splitting at a separator splits the parts on either side independently |
| Text.FindFirst | src/gtm-operator/gtm-operator.service.ts:12 | `find`: the index of the first element satisfying the test, or the length when none does |
| Text.FindFirstAppend | src/gtm-operator/gtm-operator.service.ts:12 | `find` on a concatenation looks at the second part only when the first has no match |
| GtmOperator.IsUrlSegment | src/gtm-operator/gtm-operator.service.ts:12 | true exactly when the segment begins with the three letters `url` followed by `=` |
| GtmOperator.WebsiteUrl | src/gtm-operator/gtm-operator.service.ts:10-13 | fails (`NoUrlSegment`) exactly when no `&`-segment starts with `url=`; otherwise the URL holds no `&` and no `=` |
| GtmOperator.WebsiteUrlOfSegments | src/gtm-operator/gtm-operator.service.ts:10-13 | a link built from segments yields the value in its first `url=` segment, cut at the next `=` |
| GtmOperator.WebsiteUrlSegment | src/gtm-operator/gtm-operator.service.ts:10-13 | conversely, a website URL is the value in the link's first `url=` segment, followed by nothing or a `=` |
| GtmOperator.UrlSegmentValue | src/gtm-operator/gtm-operator.service.ts:13 | `split('=')[1]` of `url=` plus a `=`-free value plus nothing or `=...` is the value |
| GtmOperator.UrlAfterParameter | src/gtm-operator/gtm-operator.service.ts:13 | the value after `url=` is the first `=`-piece of what follows it |
| GtmOperator.LaterUrlSegmentsIgnored | src/gtm-operator/gtm-operator.service.ts:12 | segments appended after a link that already has a `url=` segment do not change the website URL |
| GtmOperator.UrlSegmentFromLaterPart | src/gtm-operator/gtm-operator.service.ts:12 | a link without a `url=` segment takes its website URL from what follows a further `&` |
| GtmOperator.EdgeSegments | src/gtm-operator/gtm-operator.service.ts:10-13 | the segment before the first `&` is eligible; a link that is only `url=` gives the empty URL; an embedded `=` cuts the value |
| GtmOperator.WebsiteUrlOfHead | src/gtm-operator/gtm-operator.service.ts:10-13 | a link whose first `&`-segment is `url=` plus a `=`-free value plus nothing or `=...` yields that value |
| GtmOperator.EmbeddedEquals | src/gtm-operator/gtm-operator.service.ts:13 | a website URL holding `=` is cut at it, whatever follows |
| GtmOperator.PreviewLinkExample | src/gtm-operator/gtm-operator.service.ts:10-13 | a preview link with the container id before `url=` yields the website URL |
| GtmOperator.GoToPageViaGtm | src/gtm-operator/gtm-operator.service.ts:8-29 | `NoUrlSegment` exactly when the link has no website URL; otherwise the first target whose URL equals the website URL exactly, or `TargetTimeout` exactly when no target's URL does |
| GtmOperator.WaitStopsAtFirstMatch | src/gtm-operator/gtm-operator.service.ts:28 | targets appearing after the first matching one do not change the outcome of the wait |
| GtmOperator.LocateTestingPage | src/gtm-operator/gtm-operator.service.ts:57-62 | the last page when there is one, and nothing (undefined) when there are no pages |
| GtmOperator.NewestPageChosen | src/gtm-operator/gtm-operator.service.ts:57-62 | after a new page opens, that page is the one chosen |

## Left out

- The rxjs plumbing (`Observable`, `pipe`, `subscribe`) and `async`/`await`: a record stream is modelled as successive calls of `ExaminationRun.OnRecords`, and each awaited call as a plain step.
- ExaminationRun.OnRecords: overlapping callbacks of successive emissions are not modelled. `subscribe` does not wait for one async callback to finish before it runs the next, so two emissions can interleave their pushes to `promises` at the `await`s of lines 73 and 96. The model assumes each callback completes before the next emission arrives.
- `Promise.resolve` and `Promise.all`: every pushed promise is already resolved, so `promises` is modelled as the list of their values.
- `patchAirtable` and the HTTP client: the payload it would be handed is the result of `OnRecords`.
- `initGetDataLayerOperation`, the page collaborator that opens a browser: it is the parameter `observe`. It gives the keys of the observed data layer, or `None` when it throws. `Object.keys` of an undefined data layer throws too, and is folded into `None`. Being a function of the URL, `observe` gives two records with the same URL the same data layer (or the same failure), while the code calls the collaborator once per record and may see different pages each time.
- `JSON.parse` and `Object.keys` of the spec literal: they are the parameter `parseKeys`. No JSON grammar is modelled.
- Record fields are modelled as strings. A non-string field value in the store's records, and JavaScript truthiness of such a value, is not captured.
- `initPuppeteerService`, `goToPage`, `getBrowser`, `getPage` and the two button clicks of `goToPageViaGtm`: browser side effects, left out. The website URL is extracted before any of them.
- `waitForTarget`: modelled over the finite sequence of the URLs of the targets that appear before its timeout; the timeout itself is not modelled as time.
- `crawlPageRequests`: request interception and network events, left out.
- `browser.pages()`: its result is the parameter `pages` of `LocateTestingPage`.
- The anomaly-monitoring and controller layers: not part of this model.
- DataLayerChecker.StripDollars: its contract states the absent `$` and the bound on the length. That every other character is kept in order is stated by StripDollarsKeeps and StripDollarsConcat, not by the function's own contract.
