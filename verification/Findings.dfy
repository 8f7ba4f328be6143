// The vocabulary checks speak: gate classes, risk states and findings.
module Findings {

  // How a finding may affect the exit code.  Go keeps the class as text; Unclassified stands for
  // any text that is none of the three.
  datatype GateClass = Block | Eligible | Advisory | Unclassified

  datatype RiskState = NoRisk | Clean | Warned | Flagged

  datatype Severity = Info | Low | Medium | High | Critical

  datatype Finding = Finding(
    checkId: string,
    severity: Severity,
    gate: GateClass,
    confidence: real,
    recencyDecay: real,
    nodeId: string,
    title: string,
    evidence: string,
    reachableRoots: seq<string>,
    contained: bool)

  // Only raising counts: Flagged over Warned over everything else.
  function RiskRank(r: RiskState): nat {
    match r
    case Flagged => 2
    case Warned => 1
    case _ => 0
  }
}
