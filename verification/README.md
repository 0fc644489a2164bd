# Black Duck rapid-scan report: a Dafny model

This project models the report-shaping core of a GitHub action that runs a Black Duck
rapid scan. Given the policy violations the scan found, the action enriches each one
from the Black Duck catalog and folds it into one component report. The catalog data it
fetches is the component version, its upgrade guidance and its vulnerabilities. The
model also covers the small string rules around that core:

- the base-URL clean-up;
- the request URLs the client builds;
- the first-match component resolution;
- the decision on whether enabled policies exist;
- the marker line by which the action recognises and replaces its own pull-request comment.

Modules:

- `Wrappers` (`wrappers.dfy`): `Option` stands for an optional value. `None` is a field or
  variable that is `undefined`, or a null the code handles through `?.` or an explicit test.
  A JSON `null` where the code tests only for `undefined` is not modelled (see "Left out").
  `Result` stands for a computation whose `Failure` is an exception nothing catches.
- `Text` (`text.dfy`): how template literals render booleans and non-negative integers.
  The integer rendering is plain decimal. It matches JavaScript only below 1e21, which
  covers the small offsets and limits the client uses.
  `DigitsValue` is the reading partner of that rendering.
- `BlackduckApi` (`blackduck_api.dfy`): the records of `src/blackduck-api.ts`, `CleanUrl`
  and the constructor, the URL builders, `GetComponentVersionMatching` and the policy check.
  The network is an abstract `Catalog`. It is a record of total functions from
  (bearer token, request URL) to a `Response`, which is one of:
  - `Ok(v)`: a result was returned;
  - `NullResult`: the result was null;
  - `Fail`: the promise was rejected.
  The authentication outcome is an `Option<string>` in the same record.
- `Report` (`report.dfy`): the builders of `src/detect/report.ts`. `createLicenseReport`
  and `createVulnerabilityReport` are the `LicenseReport` and `VulnerabilityReport`
  constructors. `ReportFor` is the reference meaning of one loop iteration, and
  `ReportViolation` performs that iteration step by step. `CreateRapidScanReport` is the
  loop itself, proved against `ReportFor` with a loop invariant.
- `Comment` (`comment.dfy`): the message built by `commentOnPR` and the first-line marker
  test. `CommentOnPR` gives the actions one call requests: deletions, then one creation.

Error handling follows the code:

- Unlike a rejected upgrade-guidance request, a rejected vulnerability request is not
  caught (`src/detect/report.ts:36`). It aborts the whole run.
- A component search whose `items` array is empty is not guarded. `items[0].version`
  throws (`src/blackduck-api.ts:142`), so the model gives `Failure(EmptySearchItems(url))`,
  not "unresolved".
- A search response whose result is null, or a first hit without a version link, resolves
  to `None`. A null version record also resolves to `None`.

## Model

| member | source | states |
|---|---|---|
| Text.NatTextRoundTrip | src/blackduck-api.ts:165 | the decimal text interpolated for an offset or limit reads back as the same number |
| Text.NatTextInjective | src/blackduck-api.ts:165 | distinct offsets or limits never render to the same text |
| BlackduckApi.CleanUrl | src/blackduck-api.ts:176-181 | the input is the result itself or the result plus one `/`, and it is the latter exactly when the input ends in `/` |
| BlackduckApi.CleanUrlPrefix | src/blackduck-api.ts:177-178 | the result is a prefix of the input and at most one character shorter |
| BlackduckApi.CleanUrlTrailingSlash | src/blackduck-api.ts:176-181 | the result still ends in `/` exactly when the input ended in `//` |
| BlackduckApi.CleanUrlIdempotence | src/blackduck-api.ts:177-178 | cleaning twice equals cleaning once exactly when the input does not end in `//` (only one slash is stripped) |
| BlackduckApi.NewApiService | src/blackduck-api.ts:89-92 | the stored base URL is the given one with one trailing slash removed when it ends in `/` and unchanged otherwise; it ends in `/` only if the given one ended in `//`; the token is stored unchanged |
| BlackduckApi.PolicyFilter | src/blackduck-api.ts:158 | the filter is empty exactly when no enabled choice is given; otherwise it is `filter=policyRuleEnabled%3Atrue` or `filter=policyRuleEnabled%3Afalse` according to the choice |
| BlackduckApi.PolicyFilterInjective | src/blackduck-api.ts:158 | the three choices (absent, true, false) give three different filters |
| BlackduckApi.RequestPageUrlShape | src/blackduck-api.ts:164-166 | a page URL is base URL plus path, then `&offset=` and decimal digits that read back as the offset, then `&limit=` and decimal digits that read back as the limit |
| BlackduckApi.ComponentsMatchingUrlShape | src/blackduck-api.ts:130-134 | the component search requests `base/api/components?q=<identifier>&offset=0&limit=<limit>` |
| BlackduckApi.SubResourceUrlsDistinct | src/blackduck-api.ts:126-155 | the `/upgrade-guidance` and `/vulnerabilities` URLs never coincide, and each determines the version link it extends |
| BlackduckApi.GetComponentVersionMatching | src/blackduck-api.ts:140-151 | a resolved version is exactly the fetched record of the first hit's version link, and a successful fetch of that link always resolves to it; the call fails exactly on a rejected search, an empty hit list, or a rejected version fetch |
| BlackduckApi.FirstMatchOnly | src/blackduck-api.ts:142 | two search pages with the same first hit resolve identically, whatever the other hits and counts |
| BlackduckApi.PolicyCountDecision | src/blackduck-api.ts:112-122 | policies exist exactly when the count is present and positive; a count of 0 gives false |
| BlackduckApi.EnabledPoliciesUrlText | src/blackduck-api.ts:111 | the policy check requests `base/api/policy-rules?filter=policyRuleEnabled%3Atrue&offset=0&limit=1` |
| BlackduckApi.CheckIfEnabledPoliciesExist | src/blackduck-api.ts:109-124 | the check fails exactly when that request is rejected, and answers true exactly when it returns a positive total count |
| Report.ViolationOnlyLicenseReports | src/detect/report.ts:71-72 | one report per violating license, in order, with its name and link, flagged |
| Report.FullLicenseReports | src/detect/report.ts:73-75 | one report per license of the version, in order, with its name and link, flagged by membership of its name |
| Report.CreateComponentLicenseReports | src/detect/report.ts:69-79 | without a version, each violating license is reported flagged; with one, each version license is reported with its link and flagged iff some violating license has its name |
| Report.ViolationOnlyVulnerabilityReports | src/detect/report.ts:83-84 | one report per violating vulnerability, in order, flagged, with no link, score or severity |
| Report.FullVulnerabilityReports | src/detect/report.ts:85-90 | one report per vulnerability record, in order, carrying its link, selected score and severity |
| Report.CreateComponentVulnerabilityReports | src/detect/report.ts:81-94 | without detail, violating names flagged and nothing else; with detail, one entry per record, flagged iff a violating vulnerability has its name, score from CVSS 3 when `useCvss3` else CVSS 2, severity and link copied |
| Report.RiskTotalAppend | src/detect/report.ts:142 | the risk total of two concatenated associations is the sum of their totals |
| Report.RiskTotalPermutation | src/detect/report.ts:142 | the risk total does not depend on the order of the risk object's values |
| Report.RiskTotalBounds | src/detect/report.ts:142 | every count is at most the total, and the total is 0 exactly when every count is 0 (so 0 for an empty map) |
| Report.CreateUpgradeReport | src/detect/report.ts:134-144 | absent in gives absent out; otherwise name is `versionName`, link is `version`, and the count is the risk total |
| Report.UpgradeReportExample | src/detect/report.ts:134-144 | counts 2, 3 and 0 total 5, and an empty risk map totals 0 |
| Report.CreateComponentReport | src/detect/report.ts:57-67 | violated policies and `<component> <version>` name are copied from the violation; a link exists exactly when a version was resolved; licenses, vulnerabilities and both upgrades are the sub-reports of the violation and the fetched detail; flags derive from the violation |
| Report.CopiedFieldsIgnoreDetail | src/detect/report.ts:59-60 | violated policies and name are the same whatever version, guidance and vulnerabilities were fetched |
| Report.LicenseReportExample | src/detect/report.ts:73-75 | licenses MIT and GPL with GPL violating give MIT unflagged then GPL flagged |
| Report.VulnerabilityReportExample | src/detect/report.ts:85-90 | a violating CVSS 3 record with scores 7.5 (v3) and 4.0 (v2) is reported flagged with score 7.5 |
| Report.GuidanceOrAbsent | src/detect/report.ts:21-34 | guidance is present exactly when the response carries a result; null results and rejections both give none |
| Report.FetchVulnerabilities | src/detect/report.ts:36-37 | the fetch fails exactly when the request is rejected, gives no list exactly on a null result, and otherwise gives the page's items |
| Report.UnresolvedComponentReport | src/detect/report.ts:18-41 | an unresolved component yields a report with no link, no upgrades, and the violation-only license and vulnerability lists |
| Report.UnresolvedComponentSkipsEnrichment | src/detect/report.ts:18-38 | for an unresolved component the outcome does not depend on the upgrade-guidance or vulnerability endpoints, i.e. neither is consulted |
| Report.GuidanceFailureIsolated | src/detect/report.ts:21-37 | a null or rejected guidance fetch still yields a report with the version link, the full license list and the fetched vulnerability list, and no upgrades |
| Report.ResolvedComponentReport | src/detect/report.ts:16-42 | with a resolved version, guidance and a vulnerability page, the report has the copied policies and name, the version link, one entry per version license and per fetched vulnerability, and both upgrade reports |
| Report.NullVulnerabilityResult | src/detect/report.ts:21-66 | a null vulnerability result for a resolved component falls back to the violation-only vulnerability list, while the report keeps the version link, the version's full license list and the upgrades the guidance (if any) recommends |
| Report.VulnerabilityRejectionAborts | src/detect/report.ts:36 | a rejected vulnerability request makes the step fail with that request's fault |
| Report.ReportFor | src/detect/report.ts:15-42 | one violation's step fails iff component resolution fails (a rejected search, an empty hit list, or a rejected version-record fetch), or the component resolves and its vulnerability request is rejected, and a resolution fault is passed on unchanged; a report keeps the violation's policy names and "component version" name, links the version iff the component resolved, and flags only licenses and vulnerabilities the violation names |
| Report.CreateRapidScanReport | src/detect/report.ts:5-46 | the run succeeds iff authentication and every step succeed; then it yields exactly one report per violation, the i-th being the i-th violation's; otherwise it fails with the fault of the first failing step |
| Comment.Message | src/comment.ts:6-11 | a message starts with the marker and `\r\n`, continues with exactly the report, and has the marker as its first line |
| Comment.IsOwnComment | src/comment.ts:25-26 | a comment is the action's own iff it has a body that starts with the marker, followed directly by the end of the body or by `\r\n` |
| Comment.StripPreface | src/comment.ts:11 | whenever the marker and line break can be stripped, re-adding them rebuilds the message |
| Comment.MessageRoundTrip | src/comment.ts:6-11 | stripping marker and line break from a built message recovers the report exactly |
| Comment.FirstLine | src/comment.ts:25 | the first split element is a prefix of the body containing no `\r\n`, followed by `\r\n` or the end of the body |
| Comment.FirstLineUnique | src/comment.ts:25 | any line-break-free prefix followed by `\r\n` or the end is the first split element |
| Comment.PrefaceHasNoCarriageReturn | src/comment.ts:6 | the marker contains no carriage return |
| Comment.FirstLineIs | src/comment.ts:25 | a line without carriage returns is the first split element of a body iff the body starts with it and then ends or continues with `\r\n` |
| Comment.FirstLineOfLineBreak | src/comment.ts:25 | a line without carriage returns, followed by `\r\n` and anything, is the first split element |
| Comment.OwnMessageRecognised | src/comment.ts:11-26 | every message the action builds is selected as its own on the next run |
| Comment.LineFeedMarkerNotRecognised | src/comment.ts:25-26 | a marker followed by a bare `\n` is not selected |
| Comment.SelectOwnComments | src/comment.ts:24-34 | a comment is selected iff it is a listed comment whose body's first line is the marker (never one without a body), with every match kept as often as it occurs |
| Comment.CommentOnPR | src/comment.ts:8-43 | one call requests one deletion per selected comment and then exactly one creation, holding the new message, as its last action |
| Comment.CommentOnPRDeletesOwnComments | src/comment.ts:24-34 | every deletion a call requests targets a listed comment of the action's own, and every such listed comment is deleted |

## Left out

- JSON `null` where the code tests only for `undefined` is not modelled. The model's
  `Option` cannot tell these apart, and such input takes a different path in the source:
  - a `null` `shortTerm` or `longTerm` reaches `null.versionName`
    (`src/detect/report.ts:140`) and throws, aborting the run, whereas the model's `None`
    gives no upgrade report;
  - a `null` version link of the first search hit passes the `!== undefined` test
    (`src/blackduck-api.ts:145-146`) and is requested, whereas the model gives `Success(None)`;
  - a `null` `items` list makes `.map` throw (`src/detect/report.ts:83-87`); the model's
    sequences are never null.
- Rendering of numbers from 1e21 up, which JavaScript writes in exponent notation. The
  client only interpolates offset 0 and limits 1 and 10.

- HTTP transport and authentication (`getBearerToken`, `get`, `RestClient`, the bearer
  credential handler, JSON parsing, `src/blackduck-api.ts:94-107, 168-173`). These are
  foreign library calls. Their outcomes are the `Catalog` oracle.
- `getComponentVersion` (`src/blackduck-api.ts:136-138`): it is a bare `get` of the hit's
  version link. It appears as the `componentVersion` oracle inside `GetComponentVersionMatching`.
- The Octokit list, delete and create calls and the GitHub context (`src/comment.ts:9-42`).
  These are network I/O. The model returns the requested actions in order. That the
  delete and create promises are not awaited is a concurrency concern.
- `existing` is the one page `listComments` returns (no pagination, `src/comment.ts:18-22`);
  own comments beyond it are not seen.
- Logging through `@actions/core` (`info`, `debug`, `warning`). It has no effect on any result.
- Building a default service from the action inputs when none is passed
  (`src/detect/report.ts:8-10`). This is configuration, so the service is a parameter.
- CVSS base scores are JavaScript floats that are only copied. They are modelled as `real`.
- The untyped `vulnerabilityRisk` object is a sequence of (label, count) pairs with
  natural-number counts. Non-numeric values and floating-point summation are not modelled.
- The component identifier is interpolated into the search query without URL encoding.
  The model does the same and does not describe how the server parses such a query.
- The bearer token that authentication yields is a string. A JSON body without a
  `bearerToken` field is not distinguished.
- Deep equality of successive runs against the same catalog is immediate here: every
  member is a function of its inputs. So no separate lemma states it.
