/** Review findings: the types of codereview's lib.rs. */
module Findings {
  import opened Wrappers

  datatype Severity = High | Medium | Low

  datatype Kind = Bug | Test | Refactor | Improvement | Feature

  datatype Verdict = Confirmed | Rejected | Unsure

  datatype Finding = Finding(
    id: string, kind: Kind, repo: string, path: string, line: nat, severity: Severity, title: string, quote: string,
    scenario: string, fix: string, patch: string, patchApplies: Option<bool>, foundBy: seq<string>,
    verdict: Option<Verdict>, verdictReason: Option<string>, checkedBy: Option<string>)

  /** The derived orders: declaration order, the worst severity and the bugs first. */
  function SeverityRank(s: Severity): (rank: nat) {
    match s
    case High => 0
    case Medium => 1
    case Low => 2
  }

  function KindRank(k: Kind): (rank: nat) {
    match k
    case Bug => 0
    case Test => 1
    case Refactor => 2
    case Improvement => 3
    case Feature => 4
  }

  /** How many of a kind a run keeps. */
  function Cap(k: Kind): (cap: Option<nat>) {
    match k
    case Bug => None
    case Test => Some(3)
    case Refactor => Some(3)
    case Improvement => Some(3)
    case Feature => Some(2)
  }
}
