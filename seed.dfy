/**
 * The dashboard's initial state: three categories with two placed widgets
 * each, and a catalog of four widgets for each of four category ids.
 */
module DashboardSeed {
  import opened DashboardTypes

  const CloudAccounts := Widget("cloud-accounts", "Cloud Accounts",
    "Connected (2)\nNot Connected (2)", Metric)
  const RiskAssessment := Widget("risk-assessment", "Cloud Account Risk Assessment",
    "Failed (1689)\nWarning (681)\nNot available (36)\nPassed (7253)", Chart)
  const ComplianceOverview := Widget("compliance-overview", "Compliance Overview",
    "Compliant (85%)\nNon-compliant (15%)", Metric)
  const SecurityScore := Widget("security-score", "Security Score",
    "Overall Score: 78/100\nImprovement needed in 3 areas", Metric)

  const NamespaceAlerts := Widget("namespace-alerts", "Top 5 Namespace Specific Alerts",
    "No Graph data available!", Alert)
  const WorkloadAlerts := Widget("workload-alerts", "Workload Alerts",
    "No Graph data available!", Alert)
  const RuntimeSecurity := Widget("runtime-security", "Runtime Security Events",
    "Active threats: 12\nBlocked attacks: 45", Alert)
  const ContainerVulnerabilities := Widget("container-vulnerabilities", "Container Vulnerabilities",
    "Critical: 5\nHigh: 23\nMedium: 67", Scan)

  const ImageRisk := Widget("image-risk", "Image Risk Assessment",
    "1470 total vulnerabilities\nCritical (9)\nHigh (150)", Scan)
  const SecurityIssues := Widget("security-issues", "Image Security Issues",
    "2 total images\nCritical (2)\nHigh (2)", Scan)
  const MalwareScan := Widget("malware-scan", "Malware Scan Results",
    "Clean images: 156\nSuspicious: 3\nInfected: 1", Scan)
  const LicenseCompliance := Widget("license-compliance", "License Compliance",
    "Approved: 89%\nReview needed: 11%", Metric)

  const OpenTickets := Widget("open-tickets", "Open Support Tickets",
    "High priority: 3\nMedium priority: 7\nLow priority: 15", Metric)
  const ResolutionTime := Widget("resolution-time", "Average Resolution Time",
    "Critical: 2.5 hours\nHigh: 8 hours\nMedium: 24 hours", Metric)

  const Cspm := Category("cspm", "CSPM Executive Dashboard", [CloudAccounts, RiskAssessment])
  const Cwpp := Category("cwpp", "CWPP Dashboard", [NamespaceAlerts, WorkloadAlerts])
  const Registry := Category("registry", "Registry Scan", [ImageRisk, SecurityIssues])

  const Catalog: Catalog := map[
    "cspm" := [CloudAccounts, RiskAssessment, ComplianceOverview, SecurityScore],
    "cwpp" := [NamespaceAlerts, WorkloadAlerts, RuntimeSecurity, ContainerVulnerabilities],
    "registry" := [ImageRisk, SecurityIssues, MalwareScan, LicenseCompliance],
    "ticket" := [OpenTickets, ResolutionTime]
  ]

  /** `initialDashboardData`. */
  const InitialDashboardData := DashboardData([Cspm, Cwpp, Registry], Catalog)

  /** Every catalog widget id contains a hyphen. */
  lemma CatalogIdsHyphenated()
    ensures forall c, w :: c in Catalog && w in Catalog[c] ==> '-' in w.id
  {
    forall c, w | c in Catalog && w in Catalog[c] ensures '-' in w.id {
      if c == "cspm" {
        CspmIdsHyphenated();
      } else if c == "cwpp" {
        CwppIdsHyphenated();
      } else if c == "registry" {
        RegistryIdsHyphenated();
      } else {
        TicketIdsHyphenated();
      }
    }
  }

  /** The catalog ids of each category hold a hyphen. */
  lemma CspmIdsHyphenated()
    ensures forall w :: w in Catalog["cspm"] ==> '-' in w.id
  {
    assert CloudAccounts.id[5] == '-' && RiskAssessment.id[4] == '-';
    assert ComplianceOverview.id[10] == '-' && SecurityScore.id[8] == '-';
  }

  lemma CwppIdsHyphenated()
    ensures forall w :: w in Catalog["cwpp"] ==> '-' in w.id
  {
    assert NamespaceAlerts.id[9] == '-' && WorkloadAlerts.id[8] == '-';
    assert RuntimeSecurity.id[7] == '-' && ContainerVulnerabilities.id[9] == '-';
  }

  lemma RegistryIdsHyphenated()
    ensures forall w :: w in Catalog["registry"] ==> '-' in w.id
  {
    assert ImageRisk.id[5] == '-' && SecurityIssues.id[8] == '-';
    assert MalwareScan.id[7] == '-' && LicenseCompliance.id[7] == '-';
  }

  lemma TicketIdsHyphenated()
    ensures forall w :: w in Catalog["ticket"] ==> '-' in w.id
  {
    assert OpenTickets.id[4] == '-' && ResolutionTime.id[10] == '-';
  }
}
