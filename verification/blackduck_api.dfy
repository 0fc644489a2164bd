/** The Black Duck service client: the records it returns, the request URLs
    it builds, the first-match component resolution and the policy-existence
    decision. The HTTP transport is an abstract `Catalog` of responses. */
module BlackduckApi {
  import opened Wrappers
  import opened Text

  /** What one awaited `get` settles to: a response whose `result` holds a
      value, a response whose `result` is null, or a rejected promise. */
  datatype Response<+T> = Ok(value: T) | NullResult | Fail

  /** A page of items (`IBlackduckItemArray`); the total count may be missing
      from the JSON. */
  datatype ItemPage<+T> = ItemPage(totalCount: Option<int>, items: seq<T>)

  /** One recommended version of the upgrade guidance; the risk object is an
      association of severity label to count. */
  datatype RecommendedVersion =
    RecommendedVersion(version: string, versionName: string, vulnerabilityRisk: seq<(string, nat)>)

  /** Short- and long-term recommendations; either may be missing from the
      service's answer. */
  datatype UpgradeGuidance =
    UpgradeGuidance(version: string, shortTerm: Option<RecommendedVersion>, longTerm: Option<RecommendedVersion>)

  /** One hit of the component search; its version link may be missing. */
  datatype ComponentSearchResult = ComponentSearchResult(version: Option<string>)

  /** One license of a component version: its link and its name. */
  datatype LicenseEntry = LicenseEntry(license: string, name: string)

  /** The catalog's record for a component version (`IComponentVersion`). */
  datatype ComponentVersion = ComponentVersion(licenses: seq<LicenseEntry>, href: string)

  /** CVSS base scores are only copied, so a `real` stands for the float. */
  datatype CvssView = CvssView(baseScore: real, severity: string)

  datatype ComponentVulnerability = ComponentVulnerability(
    name: string, severity: string, useCvss3: bool, cvss2: CvssView, cvss3: CvssView, href: string)

  datatype RapidScanVulnerability = RapidScanVulnerability(name: string)

  datatype RapidScanLicense = RapidScanLicense(licenseName: string, href: string)

  /** One policy violation of the rapid scan (`IRapidScanResults`). */
  datatype RapidScanResult = RapidScanResult(
    componentName: string,
    versionName: string,
    componentIdentifier: string,
    violatingPolicyNames: seq<string>,
    policyViolationVulnerabilities: seq<RapidScanVulnerability>,
    policyViolationLicenses: seq<RapidScanLicense>,
    href: string)

  /** Why a run stops: an exception nothing catches. */
  datatype Fault =
    | AuthenticationRejected
    | RequestRejected(url: string)
    | EmptySearchItems(url: string)

  /** The service as seen through the network: each read maps a bearer token
      and a request URL to what the awaited request settles to. `authenticate`
      is the bearer token, or `None` when the authentication request rejects. */
  datatype Catalog = Catalog(
    authenticate: Option<string>,
    searchComponents: (string, string) -> Response<ItemPage<ComponentSearchResult>>,
    componentVersion: (string, string) -> Response<ComponentVersion>,
    upgradeGuidance: (string, string) -> Response<UpgradeGuidance>,
    vulnerabilities: (string, string) -> Response<ItemPage<ComponentVulnerability>>,
    policyRules: (string, string) -> Response<ItemPage<string>>)

  /** The client object: the cleaned base URL and the API token. */
  datatype ApiService = ApiService(blackduckUrl: string, blackduckApiToken: string)

  /** Default page size of a component search. */
  const DefaultLimit: nat := 10

  /** Strips one trailing slash from a URL. */
  function CleanUrl(url: string): (r: string)
    ensures url == r || url == r + "/"
    ensures url == r + "/" <==> EndsWith(url, "/")
  {
    if |url| > 0 && url[|url| - 1] == '/' then url[..|url| - 1] else url
  }

  /** The result is a prefix of the input, at most one character shorter. */
  lemma CleanUrlPrefix(url: string)
    ensures StartsWith(url, CleanUrl(url))
    ensures |url| - 1 <= |CleanUrl(url)| <= |url|
  {
  }

  /** The cleaned URL still ends in a slash exactly when the input ended in
      two. */
  lemma CleanUrlTrailingSlash(url: string)
    ensures EndsWith(CleanUrl(url), "/") <==> EndsWith(url, "//")
  {
  }

  /** Cleaning twice changes nothing more, unless the input ended in `//`,
      where the second pass strips another slash. */
  lemma CleanUrlIdempotence(url: string)
    ensures CleanUrl(CleanUrl(url)) == CleanUrl(url) <==> !EndsWith(url, "//")
  {
    CleanUrlTrailingSlash(url);
  }

  /** The constructor stores the cleaned base URL and the token as given. */
  function NewApiService(blackduckUrl: string, blackduckApiToken: string): (s: ApiService)
    ensures s.blackduckApiToken == blackduckApiToken
    ensures blackduckUrl == s.blackduckUrl || blackduckUrl == s.blackduckUrl + "/"
    ensures EndsWith(s.blackduckUrl, "/") ==> EndsWith(blackduckUrl, "//")
    ensures EndsWith(blackduckUrl, "/") ==> blackduckUrl == s.blackduckUrl + "/"
    ensures !EndsWith(blackduckUrl, "/") ==> s.blackduckUrl == blackduckUrl
  {
    CleanUrlTrailingSlash(blackduckUrl);
    ApiService(CleanUrl(blackduckUrl), blackduckApiToken)
  }

  /** The query filter on whether policy rules are enabled; empty when no
      choice is given. */
  function PolicyFilter(enabled: Option<bool>): (r: string)
    ensures r == "" <==> enabled.None?
    ensures enabled.Some? ==> StartsWith(r, "filter=policyRuleEnabled%3A")
    ensures enabled == Some(true) ==> r == "filter=policyRuleEnabled%3Atrue"
    ensures enabled == Some(false) ==> r == "filter=policyRuleEnabled%3Afalse"
  {
    match enabled
    case None => ""
    case Some(b) => "filter=policyRuleEnabled%3A" + BoolText(b)
  }

  /** Different choices give different filters. */
  lemma PolicyFilterInjective(a: Option<bool>, b: Option<bool>)
    requires PolicyFilter(a) == PolicyFilter(b)
    ensures a == b
  {
  }

  function PoliciesPath(enabled: Option<bool>): string {
    "/api/policy-rules?" + PolicyFilter(enabled)
  }

  /** The URL of one page: base, path, then the offset and limit parameters. */
  function RequestPageUrl(base: string, path: string, offset: nat, limit: nat): string {
    base + path + "&offset=" + NatText(offset) + "&limit=" + NatText(limit)
  }

  /** A page URL is the base URL and path followed by an `&offset=` and an
      `&limit=` parameter, each carrying decimal digits that read back as the
      offset and the limit. */
  lemma RequestPageUrlShape(base: string, path: string, offset: nat, limit: nat)
    ensures exists o: string, l: string ::
              && RequestPageUrl(base, path, offset, limit) == base + path + "&offset=" + o + "&limit=" + l
              && AllDigits(o) && DigitsValue(o) == offset
              && AllDigits(l) && DigitsValue(l) == limit
  {
    NatTextRoundTrip(offset);
    NatTextRoundTrip(limit);
    var o, l := NatText(offset), NatText(limit);
    assert RequestPageUrl(base, path, offset, limit) == base + path + "&offset=" + o + "&limit=" + l;
  }

  /** The component search path; the identifier is interpolated as is. */
  function ComponentsPath(componentIdentifier: string): string {
    "/api/components?q=" + componentIdentifier
  }

  function ComponentsMatchingUrl(service: ApiService, componentIdentifier: string, limit: nat): string {
    RequestPageUrl(service.blackduckUrl, ComponentsPath(componentIdentifier), 0, limit)
  }

  /** The component search reads the first page, at offset zero, of the
      search path under the base URL. */
  lemma ComponentsMatchingUrlShape(service: ApiService, componentIdentifier: string, limit: nat)
    ensures ComponentsMatchingUrl(service, componentIdentifier, limit)
         == service.blackduckUrl + "/api/components?q=" + componentIdentifier
            + "&offset=0&limit=" + NatText(limit)
  {
  }

  function UpgradeGuidanceUrl(componentVersion: ComponentVersion): string {
    componentVersion.href + "/upgrade-guidance"
  }

  function VulnerabilitiesUrl(componentVersion: ComponentVersion): string {
    componentVersion.href + "/vulnerabilities"
  }

  /** The two sub-resource URLs never collide, and each determines the
      component version's link. */
  lemma SubResourceUrlsDistinct(a: ComponentVersion, b: ComponentVersion)
    ensures UpgradeGuidanceUrl(a) != VulnerabilitiesUrl(b)
    ensures UpgradeGuidanceUrl(a) == UpgradeGuidanceUrl(b) ==> a.href == b.href
    ensures VulnerabilitiesUrl(a) == VulnerabilitiesUrl(b) ==> a.href == b.href
  {
    var u := UpgradeGuidanceUrl(a);
    var v := VulnerabilitiesUrl(b);
    assert u[|u| - 1] == 'e';
    assert v[|v| - 1] == 's';
    if UpgradeGuidanceUrl(a) == UpgradeGuidanceUrl(b) {
      assert a.href == u[..|a.href|];
      assert |a.href| == |b.href|;
    }
    if VulnerabilitiesUrl(a) == VulnerabilitiesUrl(b) {
      assert |a.href| == |b.href|;
      assert a.href == VulnerabilitiesUrl(a)[..|a.href|];
    }
  }

  /** The search request for a component identifier. */
  function GetComponentsMatching(service: ApiService, net: Catalog, bearerToken: string,
                                 componentIdentifier: string, limit: nat): Response<ItemPage<ComponentSearchResult>>
  {
    net.searchComponents(bearerToken, ComponentsMatchingUrl(service, componentIdentifier, limit))
  }

  /** Resolves a component identifier to the version record of the first
      search hit. A missing search result or a missing version link is
      `None`; an empty hit list dereferences nothing and throws; rejected
      requests propagate. */
  function GetComponentVersionMatching(service: ApiService, net: Catalog, bearerToken: string,
                                       componentIdentifier: string, limit: nat): (r: Result<Option<ComponentVersion>, Fault>)
    ensures var search := GetComponentsMatching(service, net, bearerToken, componentIdentifier, limit);
            r.Success? && r.value.Some? ==>
              && search.Ok? && |search.value.items| > 0
              && search.value.items[0].version.Some?
              && net.componentVersion(bearerToken, search.value.items[0].version.value) == Ok(r.value.value)
    ensures var search := GetComponentsMatching(service, net, bearerToken, componentIdentifier, limit);
            search.Ok? && |search.value.items| > 0 && search.value.items[0].version.Some?
            && net.componentVersion(bearerToken, search.value.items[0].version.value).Ok? ==>
              r == Success(Some(net.componentVersion(bearerToken, search.value.items[0].version.value).value))
    ensures var search := GetComponentsMatching(service, net, bearerToken, componentIdentifier, limit);
            r.Failure? <==>
              || search.Fail?
              || (search.Ok? && |search.value.items| == 0)
              || (search.Ok? && |search.value.items| > 0 && search.value.items[0].version.Some?
                  && net.componentVersion(bearerToken, search.value.items[0].version.value).Fail?)
  {
    var url := ComponentsMatchingUrl(service, componentIdentifier, limit);
    match net.searchComponents(bearerToken, url)
    case Fail => Failure(RequestRejected(url))
    case NullResult => Success(None)
    case Ok(page) =>
      if |page.items| == 0 then Failure(EmptySearchItems(url))
      else match page.items[0].version
        case None => Success(None)
        case Some(versionUrl) =>
          match net.componentVersion(bearerToken, versionUrl)
          case Fail => Failure(RequestRejected(versionUrl))
          case NullResult => Success(None)
          case Ok(componentVersion) => Success(Some(componentVersion))
  }

  /** First match wins: only the first hit of the search page matters, so
      two search answers that agree on it resolve alike. */
  lemma FirstMatchOnly(service: ApiService, net: Catalog, search2: (string, string) -> Response<ItemPage<ComponentSearchResult>>,
                       bearerToken: string, componentIdentifier: string, limit: nat,
                       first: ComponentSearchResult, rest1: seq<ComponentSearchResult>,
                       rest2: seq<ComponentSearchResult>, total1: Option<int>, total2: Option<int>)
    requires GetComponentsMatching(service, net, bearerToken, componentIdentifier, limit)
          == Ok(ItemPage(total1, [first] + rest1))
    requires GetComponentsMatching(service, net.(searchComponents := search2), bearerToken, componentIdentifier, limit)
          == Ok(ItemPage(total2, [first] + rest2))
    ensures GetComponentVersionMatching(service, net.(searchComponents := search2), bearerToken, componentIdentifier, limit)
         == GetComponentVersionMatching(service, net, bearerToken, componentIdentifier, limit)
  {
  }

  /** The page of policy rules, optionally filtered on whether they are
      enabled. */
  function GetPolicies(service: ApiService, net: Catalog, bearerToken: string,
                       limit: nat, enabled: Option<bool>): Response<ItemPage<string>>
  {
    net.policyRules(bearerToken, RequestPageUrl(service.blackduckUrl, PoliciesPath(enabled), 0, limit))
  }

  /** The decision on a possibly missing policy count. */
  function PolicyCountDecision(policyCount: Option<int>): (exist: bool)
    ensures exist <==> policyCount.Some? && policyCount.value > 0
    ensures policyCount == Some(0) ==> !exist
  {
    match policyCount
    case None => false
    case Some(n) => n > 0
  }

  /** The URL asking for one enabled policy rule. */
  function EnabledPoliciesUrl(service: ApiService): string {
    RequestPageUrl(service.blackduckUrl, PoliciesPath(Some(true)), 0, 1)
  }

  lemma EnabledPoliciesPath()
    ensures PoliciesPath(Some(true)) == "/api/policy-rules?filter=policyRuleEnabled%3Atrue"
  {
  }

  lemma PageQueryDigits()
    ensures NatText(0) == "0" && NatText(1) == "1"
    ensures "&offset=" + "0" + "&limit=" + "1" == "&offset=0&limit=1"
  {
  }

  lemma AppendAssociative(a: string, b: string, c: string)
    ensures a + b + c == a + (b + c)
  {
  }

  /** The policy check asks for the first page of one rule, filtered on
      enabled rules. */
  lemma EnabledPoliciesUrlText(service: ApiService)
    ensures EnabledPoliciesUrl(service)
         == service.blackduckUrl + "/api/policy-rules?filter=policyRuleEnabled%3Atrue" + "&offset=0&limit=1"
  {
    var front := service.blackduckUrl + "/api/policy-rules?filter=policyRuleEnabled%3Atrue";
    EnabledPoliciesPath();
    PageQueryDigits();
    assert EnabledPoliciesUrl(service) == front + "&offset=" + "0" + "&limit=" + "1";
    AppendAssociative(front, "&offset=", "0");
    AppendAssociative(front, "&offset=" + "0", "&limit=");
    AppendAssociative(front, "&offset=" + "0" + "&limit=", "1");
    assert "&offset=" + "0" + "&limit=" + "1" == "&offset=0&limit=1";
  }

  /** Whether any enabled policy exists: one enabled rule is requested, a
      missing result or count gives false, a positive count true; a rejected
      request propagates. */
  function CheckIfEnabledPoliciesExist(service: ApiService, net: Catalog, bearerToken: string): (r: Result<bool, Fault>)
    ensures var page := net.policyRules(bearerToken, EnabledPoliciesUrl(service));
            && (r.Failure? <==> page.Fail?)
            && (r == Success(true) <==> page.Ok? && page.value.totalCount.Some? && page.value.totalCount.value > 0)
  {
    match GetPolicies(service, net, bearerToken, 1, Some(true))
    case Fail => Failure(RequestRejected(EnabledPoliciesUrl(service)))
    case NullResult => Success(false)
    case Ok(page) => Success(PolicyCountDecision(page.totalCount))
  }
}
