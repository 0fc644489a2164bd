/** Assembly of the rapid-scan report: one component report per policy
    violation, enriched from the catalog where the component resolves. */
module Report {
  import opened Wrappers
  import opened BlackduckApi

  /** `createLicenseReport` is this constructor. */
  datatype LicenseReport = LicenseReport(name: string, href: string, violatesPolicy: bool)

  /** `createVulnerabilityReport` is this constructor; the optional fields
      are present only when full vulnerability detail was fetched. */
  datatype VulnerabilityReport = VulnerabilityReport(
    name: string, violatesPolicy: bool, href: Option<string>, cvssScore: Option<real>, severity: Option<string>)

  datatype UpgradeReport = UpgradeReport(name: string, href: string, vulnerabilityCount: nat)

  datatype ComponentReport = ComponentReport(
    violatedPolicies: seq<string>,
    name: string,
    href: Option<string>,
    licenses: seq<LicenseReport>,
    vulnerabilities: seq<VulnerabilityReport>,
    shortTermUpgrade: Option<UpgradeReport>,
    longTermUpgrade: Option<UpgradeReport>)

  // ---------------------------------------------------------------- licenses

  function LicenseNames(licenses: seq<RapidScanLicense>): seq<string> {
    seq(|licenses|, i requires 0 <= i < |licenses| => licenses[i].licenseName)
  }

  /** Without a component version: every violating license, flagged. */
  function ViolationOnlyLicenseReports(violating: seq<RapidScanLicense>): (r: seq<LicenseReport>)
    ensures |r| == |violating|
    ensures forall i :: 0 <= i < |r| ==> r[i] == LicenseReport(violating[i].licenseName, violating[i].href, true)
  {
    if |violating| == 0 then []
    else [LicenseReport(violating[0].licenseName, violating[0].href, true)]
         + ViolationOnlyLicenseReports(violating[1..])
  }

  /** With a component version: every license of the version, flagged when
      its name is among the violating names. */
  function FullLicenseReports(violatingNames: seq<string>, licenses: seq<LicenseEntry>): (r: seq<LicenseReport>)
    ensures |r| == |licenses|
    ensures forall i :: 0 <= i < |r| ==>
              r[i] == LicenseReport(licenses[i].name, licenses[i].license, licenses[i].name in violatingNames)
  {
    if |licenses| == 0 then []
    else [LicenseReport(licenses[0].name, licenses[0].license, licenses[0].name in violatingNames)]
         + FullLicenseReports(violatingNames, licenses[1..])
  }

  /** The license sub-report: the version's full license list when the
      component resolved, the violating licenses alone otherwise. */
  function CreateComponentLicenseReports(violating: seq<RapidScanLicense>, componentVersion: Option<ComponentVersion>)
    : (r: seq<LicenseReport>)
    ensures componentVersion.None? ==>
              && |r| == |violating|
              && forall i :: 0 <= i < |r| ==>
                   r[i].name == violating[i].licenseName && r[i].href == violating[i].href && r[i].violatesPolicy
    ensures componentVersion.Some? ==>
              var licenses := componentVersion.value.licenses;
              && |r| == |licenses|
              && forall i :: 0 <= i < |r| ==>
                   && r[i].name == licenses[i].name
                   && r[i].href == licenses[i].license
                   && (r[i].violatesPolicy <==> exists j :: 0 <= j < |violating| && violating[j].licenseName == licenses[i].name)
  {
    match componentVersion
    case None => ViolationOnlyLicenseReports(violating)
    case Some(version) =>
      var r := FullLicenseReports(LicenseNames(violating), version.licenses);
      assert forall i :: 0 <= i < |r| ==>
               (r[i].name in LicenseNames(violating) <==>
                exists j :: 0 <= j < |violating| && violating[j].licenseName == r[i].name) by {
        forall i | 0 <= i < |r|
          ensures r[i].name in LicenseNames(violating) <==>
                  exists j :: 0 <= j < |violating| && violating[j].licenseName == r[i].name
        {
          if exists j :: 0 <= j < |violating| && violating[j].licenseName == r[i].name {
            var j :| 0 <= j < |violating| && violating[j].licenseName == r[i].name;
            assert LicenseNames(violating)[j] == r[i].name;
          }
          if r[i].name in LicenseNames(violating) {
            var j :| 0 <= j < |LicenseNames(violating)| && LicenseNames(violating)[j] == r[i].name;
            assert violating[j].licenseName == r[i].name;
          }
        }
      }
      r
  }

  // --------------------------------------------------------- vulnerabilities

  function VulnerabilityNames(vulnerabilities: seq<RapidScanVulnerability>): seq<string> {
    seq(|vulnerabilities|, i requires 0 <= i < |vulnerabilities| => vulnerabilities[i].name)
  }

  /** The score a vulnerability record reports: CVSS 3 when it says so,
      CVSS 2 otherwise. */
  function CvssBaseScore(vulnerability: ComponentVulnerability): real {
    if vulnerability.useCvss3 then vulnerability.cvss3.baseScore else vulnerability.cvss2.baseScore
  }

  /** Without vulnerability detail: every violating vulnerability, flagged,
      with no link, score or severity. */
  function ViolationOnlyVulnerabilityReports(violating: seq<RapidScanVulnerability>): (r: seq<VulnerabilityReport>)
    ensures |r| == |violating|
    ensures forall i :: 0 <= i < |r| ==> r[i] == VulnerabilityReport(violating[i].name, true, None, None, None)
  {
    if |violating| == 0 then []
    else [VulnerabilityReport(violating[0].name, true, None, None, None)]
         + ViolationOnlyVulnerabilityReports(violating[1..])
  }

  /** With detail: every vulnerability of the fetched page, flagged when its name is among
      the violating names, with its link, score and severity. */
  function FullVulnerabilityReports(violatingNames: seq<string>, vulnerabilities: seq<ComponentVulnerability>)
    : (r: seq<VulnerabilityReport>)
    ensures |r| == |vulnerabilities|
    ensures forall i :: 0 <= i < |r| ==>
              r[i] == VulnerabilityReport(vulnerabilities[i].name, vulnerabilities[i].name in violatingNames,
                                          Some(vulnerabilities[i].href), Some(CvssBaseScore(vulnerabilities[i])),
                                          Some(vulnerabilities[i].severity))
  {
    if |vulnerabilities| == 0 then []
    else [VulnerabilityReport(vulnerabilities[0].name, vulnerabilities[0].name in violatingNames,
                              Some(vulnerabilities[0].href), Some(CvssBaseScore(vulnerabilities[0])),
                              Some(vulnerabilities[0].severity))]
         + FullVulnerabilityReports(violatingNames, vulnerabilities[1..])
  }

  /** The vulnerability sub-report: the full detail when it was fetched, the
      violating vulnerabilities alone otherwise. */
  function CreateComponentVulnerabilityReports(violating: seq<RapidScanVulnerability>,
                                               componentVulnerabilities: Option<seq<ComponentVulnerability>>)
    : (r: seq<VulnerabilityReport>)
    ensures componentVulnerabilities.None? ==>
              && |r| == |violating|
              && forall i :: 0 <= i < |r| ==>
                   && r[i].name == violating[i].name && r[i].violatesPolicy
                   && r[i].href.None? && r[i].cvssScore.None? && r[i].severity.None?
    ensures componentVulnerabilities.Some? ==>
              var vs := componentVulnerabilities.value;
              && |r| == |vs|
              && forall i :: 0 <= i < |r| ==>
                   && r[i].name == vs[i].name
                   && (r[i].violatesPolicy <==> exists j :: 0 <= j < |violating| && violating[j].name == vs[i].name)
                   && r[i].href == Some(vs[i].href)
                   && r[i].cvssScore == Some(if vs[i].useCvss3 then vs[i].cvss3.baseScore else vs[i].cvss2.baseScore)
                   && r[i].severity == Some(vs[i].severity)
  {
    match componentVulnerabilities
    case None => ViolationOnlyVulnerabilityReports(violating)
    case Some(vs) =>
      var r := FullVulnerabilityReports(VulnerabilityNames(violating), vs);
      assert forall i :: 0 <= i < |r| ==>
               (r[i].name in VulnerabilityNames(violating) <==>
                exists j :: 0 <= j < |violating| && violating[j].name == r[i].name) by {
        forall i | 0 <= i < |r|
          ensures r[i].name in VulnerabilityNames(violating) <==>
                  exists j :: 0 <= j < |violating| && violating[j].name == r[i].name
        {
          if exists j :: 0 <= j < |violating| && violating[j].name == r[i].name {
            var j :| 0 <= j < |violating| && violating[j].name == r[i].name;
            assert VulnerabilityNames(violating)[j] == r[i].name;
          }
          if r[i].name in VulnerabilityNames(violating) {
            var j :| 0 <= j < |VulnerabilityNames(violating)| && VulnerabilityNames(violating)[j] == r[i].name;
            assert violating[j].name == r[i].name;
          }
        }
      }
      r
  }

  // ---------------------------------------------------------------- upgrades

  /** The sum of the counts of a risk association, labels ignored. */
  function RiskTotal(risk: seq<(string, nat)>): nat {
    if |risk| == 0 then 0 else risk[0].1 + RiskTotal(risk[1..])
  }

  lemma {:induction false} RiskTotalAppend(a: seq<(string, nat)>, b: seq<(string, nat)>)
    ensures RiskTotal(a + b) == RiskTotal(a) + RiskTotal(b)
    decreases |a|
  {
    if |a| > 0 {
      assert (a + b)[1..] == a[1..] + b;
      RiskTotalAppend(a[1..], b);
    } else {
      assert a + b == b;
    }
  }

  /** Taking one entry out of the association lowers the total by its count. */
  lemma RiskTotalRemove(risk: seq<(string, nat)>, i: nat)
    requires i < |risk|
    ensures RiskTotal(risk) == risk[i].1 + RiskTotal(risk[..i] + risk[i + 1..])
  {
    var tail := risk[i..];
    assert risk == risk[..i] + tail;
    RiskTotalAppend(risk[..i], tail);
    assert tail[0] == risk[i] && tail[1..] == risk[i + 1..];
    RiskTotalAppend(risk[..i], risk[i + 1..]);
  }

  lemma MultisetWithout<T>(s: seq<T>, i: nat)
    requires i < |s|
    ensures multiset(s[..i] + s[i + 1..]) == multiset(s) - multiset{s[i]}
  {
    assert s == s[..i] + [s[i]] + s[i + 1..];
    assert multiset(s) == multiset(s[..i]) + multiset{s[i]} + multiset(s[i + 1..]);
  }

  /** Where the head of one permutation sits in the other, and what is
      left on both sides once it is removed. */
  lemma PermutationHead<T>(a: seq<T>, b: seq<T>) returns (i: nat)
    requires |a| > 0 && multiset(a) == multiset(b)
    ensures i < |b| && b[i] == a[0]
    ensures multiset(a[1..]) == multiset(b[..i] + b[i + 1..])
  {
    assert a == [a[0]] + a[1..];
    assert multiset(a) == multiset{a[0]} + multiset(a[1..]);
    assert a[0] in multiset(b);
    i :| 0 <= i < |b| && b[i] == a[0];
    MultisetWithout(b, i);
  }

  /** The order in which the risk object lists its values does not change
      the total. */
  lemma {:induction false} RiskTotalPermutation(a: seq<(string, nat)>, b: seq<(string, nat)>)
    requires multiset(a) == multiset(b)
    ensures RiskTotal(a) == RiskTotal(b)
    decreases |a|
  {
    if |a| == 0 {
      assert |b| == |multiset(b)| == 0;
    } else {
      var i := PermutationHead(a, b);
      RiskTotalPermutation(a[1..], b[..i] + b[i + 1..]);
      RiskTotalRemove(b, i);
    }
  }

  /** Every count is bounded by the total, and the total is zero exactly
      when every count is. */
  lemma {:induction false} RiskTotalBounds(risk: seq<(string, nat)>)
    ensures forall i :: 0 <= i < |risk| ==> risk[i].1 <= RiskTotal(risk)
    ensures RiskTotal(risk) == 0 <==> forall i :: 0 <= i < |risk| ==> risk[i].1 == 0
    decreases |risk|
  {
    if |risk| > 0 {
      RiskTotalBounds(risk[1..]);
      assert forall i :: 1 <= i < |risk| ==> risk[i] == risk[1..][i - 1];
    }
  }

  /** The upgrade sub-report of an optional recommended version. */
  function CreateUpgradeReport(recommendedVersion: Option<RecommendedVersion>): (r: Option<UpgradeReport>)
    ensures r.None? <==> recommendedVersion.None?
    ensures recommendedVersion.Some? ==>
              && r.value.name == recommendedVersion.value.versionName
              && r.value.href == recommendedVersion.value.version
              && r.value.vulnerabilityCount == RiskTotal(recommendedVersion.value.vulnerabilityRisk)
  {
    match recommendedVersion
    case None => None
    case Some(v) => Some(UpgradeReport(v.versionName, v.version, RiskTotal(v.vulnerabilityRisk)))
  }

  /** Risk counts 2, 3 and 0 give a vulnerability count of 5; an empty risk
      object gives 0. */
  lemma UpgradeReportExample()
    ensures CreateUpgradeReport(Some(RecommendedVersion("v", "2.0", [("CRITICAL", 2), ("HIGH", 3), ("MEDIUM", 0)])))
         == Some(UpgradeReport("2.0", "v", 5))
    ensures CreateUpgradeReport(Some(RecommendedVersion("v", "2.0", []))) == Some(UpgradeReport("2.0", "v", 0))
  {
  }

  // ------------------------------------------------------- component report

  /** Folds a violation and whatever detail was fetched into one report. */
  function CreateComponentReport(violation: RapidScanResult, componentVersion: Option<ComponentVersion>,
                                 upgradeGuidance: Option<UpgradeGuidance>,
                                 vulnerabilities: Option<seq<ComponentVulnerability>>): (r: ComponentReport)
    ensures r.violatedPolicies == violation.violatingPolicyNames
    ensures r.name == violation.componentName + " " + violation.versionName
    ensures r.href.Some? <==> componentVersion.Some?
    ensures componentVersion.Some? ==> r.href == Some(componentVersion.value.href)
    ensures r.shortTermUpgrade.Some? ==> upgradeGuidance.Some? && upgradeGuidance.value.shortTerm.Some?
    ensures r.longTermUpgrade.Some? ==> upgradeGuidance.Some? && upgradeGuidance.value.longTerm.Some?
    ensures FlagsFromViolation(violation, r)
    ensures r.licenses == CreateComponentLicenseReports(violation.policyViolationLicenses, componentVersion)
    ensures r.vulnerabilities == CreateComponentVulnerabilityReports(violation.policyViolationVulnerabilities, vulnerabilities)
    ensures r.shortTermUpgrade == CreateUpgradeReport(if upgradeGuidance.Some? then upgradeGuidance.value.shortTerm else None)
    ensures r.longTermUpgrade == CreateUpgradeReport(if upgradeGuidance.Some? then upgradeGuidance.value.longTerm else None)
  {
    var licenses := CreateComponentLicenseReports(violation.policyViolationLicenses, componentVersion);
    var vulns := CreateComponentVulnerabilityReports(violation.policyViolationVulnerabilities, vulnerabilities);
    ComponentReport(
      violation.violatingPolicyNames,
      violation.componentName + " " + violation.versionName,
      match componentVersion case None => None case Some(cv) => Some(cv.href),
      licenses,
      vulns,
      CreateUpgradeReport(match upgradeGuidance case None => None case Some(g) => g.shortTerm),
      CreateUpgradeReport(match upgradeGuidance case None => None case Some(g) => g.longTerm))
  }

  /** A license or vulnerability is flagged only when the violation itself
      names it: fetched detail never makes an entry violate. */
  predicate FlagsFromViolation(violation: RapidScanResult, report: ComponentReport) {
    && (forall i :: 0 <= i < |report.licenses| && report.licenses[i].violatesPolicy ==>
          exists j :: 0 <= j < |violation.policyViolationLicenses|
                      && violation.policyViolationLicenses[j].licenseName == report.licenses[i].name)
    && (forall i :: 0 <= i < |report.vulnerabilities| && report.vulnerabilities[i].violatesPolicy ==>
          exists j :: 0 <= j < |violation.policyViolationVulnerabilities|
                      && violation.policyViolationVulnerabilities[j].name == report.vulnerabilities[i].name)
  }

  /** The violated policies and the display name come from the violation
      alone, whatever detail was fetched. */
  lemma CopiedFieldsIgnoreDetail(violation: RapidScanResult,
                                 cv1: Option<ComponentVersion>, g1: Option<UpgradeGuidance>, vs1: Option<seq<ComponentVulnerability>>,
                                 cv2: Option<ComponentVersion>, g2: Option<UpgradeGuidance>, vs2: Option<seq<ComponentVulnerability>>)
    ensures CreateComponentReport(violation, cv1, g1, vs1).violatedPolicies
         == CreateComponentReport(violation, cv2, g2, vs2).violatedPolicies
    ensures CreateComponentReport(violation, cv1, g1, vs1).name
         == CreateComponentReport(violation, cv2, g2, vs2).name
  {
  }

  /** A version licensed under MIT and GPL, where only GPL violates a policy,
      reports MIT unflagged and then GPL flagged, each with its own link. */
  lemma LicenseReportExample()
    ensures CreateComponentLicenseReports([RapidScanLicense("GPL", "V1")],
                                          Some(ComponentVersion([LicenseEntry("L1", "MIT"), LicenseEntry("L2", "GPL")], "C")))
         == [LicenseReport("MIT", "L1", false), LicenseReport("GPL", "L2", true)]
  {
    var r := CreateComponentLicenseReports([RapidScanLicense("GPL", "V1")],
                                           Some(ComponentVersion([LicenseEntry("L1", "MIT"), LicenseEntry("L2", "GPL")], "C")));
    assert [RapidScanLicense("GPL", "V1")][0].licenseName == "GPL";
    assert r[0].name == "MIT" && r[1].name == "GPL";
    assert "MIT" != "GPL";
  }

  /** A record that uses CVSS 3 (score 7.5, CVSS 2 score 4.0) and is named in
      the violation is reported flagged, with score 7.5. */
  lemma VulnerabilityReportExample()
    ensures CreateComponentVulnerabilityReports(
              [RapidScanVulnerability("CVE-1")],
              Some([ComponentVulnerability("CVE-1", "HIGH", true, CvssView(4.0, "MEDIUM"), CvssView(7.5, "HIGH"), "H")]))
         == [VulnerabilityReport("CVE-1", true, Some("H"), Some(7.5), Some("HIGH"))]
  {
    var v := ComponentVulnerability("CVE-1", "HIGH", true, CvssView(4.0, "MEDIUM"), CvssView(7.5, "HIGH"), "H");
    var r := CreateComponentVulnerabilityReports([RapidScanVulnerability("CVE-1")], Some([v]));
    assert [RapidScanVulnerability("CVE-1")][0].name == "CVE-1";
    assert r[0].violatesPolicy;
  }

  // ------------------------------------------------------ per-violation step

  /** Upgrade guidance is best effort: a null result or a rejected request
      both degrade to no guidance. */
  function GuidanceOrAbsent(response: Response<UpgradeGuidance>): (g: Option<UpgradeGuidance>)
    ensures g.Some? <==> response.Ok?
    ensures response.Ok? ==> g == Some(response.value)
  {
    match response
    case Ok(guidance) => Some(guidance)
    case NullResult => None
    case Fail => None
  }

  /** The vulnerability fetch: a null result gives no list, a rejected
      request is not caught. */
  function FetchVulnerabilities(net: Catalog, bearerToken: string, componentVersion: ComponentVersion)
    : (r: Result<Option<seq<ComponentVulnerability>>, Fault>)
    ensures var response := net.vulnerabilities(bearerToken, VulnerabilitiesUrl(componentVersion));
            && (r.Failure? <==> response.Fail?)
            && (r == Success(None) <==> response.NullResult?)
            && (response.Ok? ==> r == Success(Some(response.value.items)))
  {
    var url := VulnerabilitiesUrl(componentVersion);
    match net.vulnerabilities(bearerToken, url)
    case Fail => Failure(RequestRejected(url))
    case NullResult => Success(None)
    case Ok(page) => Success(Some(page.items))
  }

  /** The report one violation yields, or the fault that stops the run: the
      reference against which the loop below is proved. */
  function ReportFor(service: ApiService, net: Catalog, bearerToken: string, violation: RapidScanResult)
    : (r: Result<ComponentReport, Fault>)
    ensures var found := GetComponentVersionMatching(service, net, bearerToken, violation.componentIdentifier, DefaultLimit);
            && (r.Failure? <==>
                  || found.Failure?
                  || (found.value.Some? && net.vulnerabilities(bearerToken, VulnerabilitiesUrl(found.value.value)).Fail?))
            && (found.Failure? ==> r == Failure(found.error))
            && (r.Success? ==> (r.value.href.Some? <==> found.value.Some?))
    ensures r.Success? ==>
              && r.value.violatedPolicies == violation.violatingPolicyNames
              && r.value.name == violation.componentName + " " + violation.versionName
              && FlagsFromViolation(violation, r.value)
  {
    match GetComponentVersionMatching(service, net, bearerToken, violation.componentIdentifier, DefaultLimit)
    case Failure(e) => Failure(e)
    case Success(None) => Success(CreateComponentReport(violation, None, None, None))
    case Success(Some(cv)) =>
      var guidance := GuidanceOrAbsent(net.upgradeGuidance(bearerToken, UpgradeGuidanceUrl(cv)));
      match FetchVulnerabilities(net, bearerToken, cv)
      case Failure(e) => Failure(e)
      case Success(vulnerabilities) => Success(CreateComponentReport(violation, Some(cv), guidance, vulnerabilities))
  }

  /** An unresolved component gets the reduced report: no link, no upgrades,
      and only the violation's own licenses and vulnerabilities, flagged. */
  lemma UnresolvedComponentReport(service: ApiService, net: Catalog, bearerToken: string, violation: RapidScanResult)
    requires GetComponentVersionMatching(service, net, bearerToken, violation.componentIdentifier, DefaultLimit) == Success(None)
    ensures ReportFor(service, net, bearerToken, violation).Success?
    ensures var r := ReportFor(service, net, bearerToken, violation).value;
            && r.href.None? && r.shortTermUpgrade.None? && r.longTermUpgrade.None?
            && r.licenses == ViolationOnlyLicenseReports(violation.policyViolationLicenses)
            && r.vulnerabilities == ViolationOnlyVulnerabilityReports(violation.policyViolationVulnerabilities)
  {
  }

  /** An unresolved component fetches neither upgrade guidance nor
      vulnerabilities: whatever those endpoints would answer, the outcome is
      the same. */
  lemma UnresolvedComponentSkipsEnrichment(service: ApiService, net: Catalog, bearerToken: string, violation: RapidScanResult,
                                           guidance: (string, string) -> Response<UpgradeGuidance>,
                                           vulnerabilities: (string, string) -> Response<ItemPage<ComponentVulnerability>>)
    requires GetComponentVersionMatching(service, net, bearerToken, violation.componentIdentifier, DefaultLimit) == Success(None)
    ensures ReportFor(service, net.(upgradeGuidance := guidance, vulnerabilities := vulnerabilities), bearerToken, violation)
         == ReportFor(service, net, bearerToken, violation)
  {
  }

  /** A failed upgrade-guidance fetch only drops the upgrades: the report is
      still produced with the resolved component's link and licenses. */
  lemma GuidanceFailureIsolated(service: ApiService, net: Catalog, bearerToken: string, violation: RapidScanResult,
                                cv: ComponentVersion)
    requires GetComponentVersionMatching(service, net, bearerToken, violation.componentIdentifier, DefaultLimit) == Success(Some(cv))
    requires !net.upgradeGuidance(bearerToken, UpgradeGuidanceUrl(cv)).Ok?
    requires !net.vulnerabilities(bearerToken, VulnerabilitiesUrl(cv)).Fail?
    ensures ReportFor(service, net, bearerToken, violation).Success?
    ensures var r := ReportFor(service, net, bearerToken, violation).value;
            && r.shortTermUpgrade.None? && r.longTermUpgrade.None?
            && r.href == Some(cv.href)
            && r.licenses == CreateComponentLicenseReports(violation.policyViolationLicenses, Some(cv))
            && r.vulnerabilities == CreateComponentVulnerabilityReports(
                 violation.policyViolationVulnerabilities, FetchVulnerabilities(net, bearerToken, cv).value)
  {
  }

  /** A resolved component with guidance and vulnerability detail gets the
      full report: the version link, the version's licenses, every
      vulnerability of the fetched page, and both recommended upgrades. */
  lemma ResolvedComponentReport(service: ApiService, net: Catalog, bearerToken: string, violation: RapidScanResult,
                                cv: ComponentVersion, guidance: UpgradeGuidance, page: ItemPage<ComponentVulnerability>)
    requires GetComponentVersionMatching(service, net, bearerToken, violation.componentIdentifier, DefaultLimit) == Success(Some(cv))
    requires net.upgradeGuidance(bearerToken, UpgradeGuidanceUrl(cv)) == Ok(guidance)
    requires net.vulnerabilities(bearerToken, VulnerabilitiesUrl(cv)) == Ok(page)
    ensures ReportFor(service, net, bearerToken, violation).Success?
    ensures var r := ReportFor(service, net, bearerToken, violation).value;
            && r.violatedPolicies == violation.violatingPolicyNames
            && r.name == violation.componentName + " " + violation.versionName
            && r.href == Some(cv.href)
            && r.licenses == FullLicenseReports(LicenseNames(violation.policyViolationLicenses), cv.licenses)
            && r.vulnerabilities == FullVulnerabilityReports(VulnerabilityNames(violation.policyViolationVulnerabilities), page.items)
            && r.shortTermUpgrade == CreateUpgradeReport(guidance.shortTerm)
            && r.longTermUpgrade == CreateUpgradeReport(guidance.longTerm)
  {
  }

  /** A null vulnerability result falls back to the violating
      vulnerabilities alone; the link, the version's licenses and whatever
      upgrades the guidance recommends are kept. */
  lemma NullVulnerabilityResult(service: ApiService, net: Catalog, bearerToken: string, violation: RapidScanResult,
                                cv: ComponentVersion)
    requires GetComponentVersionMatching(service, net, bearerToken, violation.componentIdentifier, DefaultLimit) == Success(Some(cv))
    requires net.vulnerabilities(bearerToken, VulnerabilitiesUrl(cv)).NullResult?
    ensures ReportFor(service, net, bearerToken, violation).Success?
    ensures var r := ReportFor(service, net, bearerToken, violation).value;
            var g := GuidanceOrAbsent(net.upgradeGuidance(bearerToken, UpgradeGuidanceUrl(cv)));
            && r.vulnerabilities == ViolationOnlyVulnerabilityReports(violation.policyViolationVulnerabilities)
            && r.href == Some(cv.href)
            && r.licenses == FullLicenseReports(LicenseNames(violation.policyViolationLicenses), cv.licenses)
            && r.shortTermUpgrade == CreateUpgradeReport(if g.Some? then g.value.shortTerm else None)
            && r.longTermUpgrade == CreateUpgradeReport(if g.Some? then g.value.longTerm else None)
  {
  }

  /** A rejected vulnerability request is not caught: the step fails. */
  lemma VulnerabilityRejectionAborts(service: ApiService, net: Catalog, bearerToken: string, violation: RapidScanResult,
                                     cv: ComponentVersion)
    requires GetComponentVersionMatching(service, net, bearerToken, violation.componentIdentifier, DefaultLimit) == Success(Some(cv))
    requires net.vulnerabilities(bearerToken, VulnerabilitiesUrl(cv)).Fail?
    ensures ReportFor(service, net, bearerToken, violation) == Failure(RequestRejected(VulnerabilitiesUrl(cv)))
  {
  }

  // ------------------------------------------------------------- the driver

  /** One iteration of the loop below: resolve the component, fetch its
      guidance and vulnerabilities, and build its report. */
  method ReportViolation(service: ApiService, net: Catalog, bearerToken: string, violation: RapidScanResult)
    returns (r: Result<ComponentReport, Fault>)
    ensures r == ReportFor(service, net, bearerToken, violation)
  {
    var resolved := GetComponentVersionMatching(service, net, bearerToken, violation.componentIdentifier, DefaultLimit);
    if resolved.Failure? {
      assert ReportFor(service, net, bearerToken, violation) == Failure(resolved.error);
      return Failure(resolved.error);
    }
    var upgradeGuidance: Option<UpgradeGuidance> := None;
    var vulnerabilities: Option<seq<ComponentVulnerability>> := None;
    if resolved.value.Some? {
      var componentVersion := resolved.value.value;
      upgradeGuidance := GuidanceOrAbsent(net.upgradeGuidance(bearerToken, UpgradeGuidanceUrl(componentVersion)));
      var fetched := FetchVulnerabilities(net, bearerToken, componentVersion);
      if fetched.Failure? {
        assert ReportFor(service, net, bearerToken, violation) == Failure(fetched.error);
        return Failure(fetched.error);
      }
      vulnerabilities := fetched.value;
    }
    return Success(CreateComponentReport(violation, resolved.value, upgradeGuidance, vulnerabilities));
  }

  /** Builds the report: authenticates once, then walks the violations in
      order, resolving each component and enriching it when it resolves. The
      first uncaught fault ends the run. */
  method CreateRapidScanReport(policyViolations: seq<RapidScanResult>, service: ApiService, net: Catalog)
    returns (r: Result<seq<ComponentReport>, Fault>)
    ensures net.authenticate.None? ==> r == Failure(AuthenticationRejected)
    ensures r.Success? <==>
              && net.authenticate.Some?
              && forall i :: 0 <= i < |policyViolations| ==>
                   ReportFor(service, net, net.authenticate.value, policyViolations[i]).Success?
    ensures r.Success? ==>
              && net.authenticate.Some?
              && |r.value| == |policyViolations|
              && forall i :: 0 <= i < |policyViolations| ==>
                   ReportFor(service, net, net.authenticate.value, policyViolations[i]) == Success(r.value[i])
    ensures r.Failure? && net.authenticate.Some? ==>
              exists k :: 0 <= k < |policyViolations|
                && ReportFor(service, net, net.authenticate.value, policyViolations[k]) == Failure(r.error)
                && forall j :: 0 <= j < k ==> ReportFor(service, net, net.authenticate.value, policyViolations[j]).Success?
  {
    if net.authenticate.None? {
      return Failure(AuthenticationRejected);
    }
    var bearerToken := net.authenticate.value;
    var reports: seq<ComponentReport> := [];
    var i := 0;
    while i < |policyViolations|
      invariant 0 <= i <= |policyViolations|
      invariant |reports| == i
      invariant forall j :: 0 <= j < i ==> ReportFor(service, net, bearerToken, policyViolations[j]) == Success(reports[j])
    {
      var step := ReportViolation(service, net, bearerToken, policyViolations[i]);
      if step.Failure? {
        return Failure(step.error);
      }
      var report := step.value;
      reports := reports + [report];
      i := i + 1;
    }
    return Success(reports);
  }
}
